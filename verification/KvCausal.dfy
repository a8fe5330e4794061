/** The causal cache itself: a fixed array of cells with a row of keys and values
    beside each, updated in place. */
module KvCausal {
  import opened Helpers
  import opened KvCells
  import opened KvDefrag
  import opened KvBlocks
  import opened KvOps
  import opened KvIndex
  import opened KvMask

  datatype Error = CacheFull | NotSupported | SharedCells | BackendError

  datatype Outcome = Pass | Fail(error: Error)

  /** The size of the free block that a batch of n tokens is given. */
  function Wanted(n: nat): nat {
    if n == 0 then 1 else n
  }

  ghost predicate HasBlock(cells: seq<Cell>, n: nat) {
    exists k :: FreeBlock(cells, k, n)
  }

  ghost predicate FirstBlock(cells: seq<Cell>, k: int, n: nat) {
    FreeBlock(cells, k, n) && forall j | 0 <= j < k :: !FreeBlock(cells, j, n)
  }

  /** The cells and rows that a batch of n tokens is stored into: those of the
      cache, defragmented if it has no block large enough. */
  ghost function BaseCells(cells: seq<Cell>, n: nat): (r: seq<Cell>)
    ensures |r| == |cells|
  {
    if HasBlock(cells, Wanted(n)) then cells else Compacted(cells)
  }

  ghost function BaseRows(cells: seq<Cell>, rows: seq<Row>, n: nat): (r: seq<Row>)
    requires |cells| == |rows|
    ensures |r| == |rows|
  {
    if HasBlock(cells, Wanted(n)) then rows else CompactedRows(cells, rows)
  }

  const NO_MASK := Mask([], 0, 0)

  /** How starting a pass with n tokens ends. */
  ghost function Reply(cells: seq<Cell>, n: nat, maskOk: bool): Outcome {
    if EmptyCount(cells) < Wanted(n) then Fail(CacheFull) else if maskOk then Pass else Fail(BackendError)
  }

  /** The contents of a cache. */
  datatype State = State(cells: seq<Cell>, rows: seq<Row>)

  ghost predicate Forwarded(a: State, positions: seq<Int32>, seqs: seq<int>, batch: seq<Row>, loc: nat, b: State) {
    && |a.cells| == |a.rows| && |positions| == |seqs| == |batch|
    && var base := State(BaseCells(a.cells, |positions|), BaseRows(a.cells, a.rows, |positions|));
    if Wanted(|positions|) <= EmptyCount(a.cells)
    then FirstBlock(base.cells, loc, Wanted(|positions|)) && loc + |positions| <= |a.cells|
         && b == State(Overlay(base.cells, loc, BatchCells(positions, seqs)), Overlay(base.rows, loc, batch))
    else b == base
  }

  class Causal {
    const windowSize: Int32
    const cachePadding: nat
    const maskBatchPadding: nat
    const canShift: bool          // a shift function was supplied

    const cells: array<Cell>
    const rows: array<Row>
    var cellRanges: map<int, Range>
    var hasLayers: bool           // some layer has its key and value tensors

    var curLoc: nat
    var curBatchSize: nat
    var curCellRange: Range
    var curMask: Mask

    ghost function Contents(): State
      reads cells, rows
    {
      State(cells[..], rows[..])
    }

    ghost predicate Shape()
      reads this, cells, rows
    {
      && cells.Length == rows.Length <= MAX_INT32
      && 0 < cachePadding && 0 < maskBatchPadding
      && cells.Length % cachePadding == 0
    }

    ghost predicate Valid()
      reads this, cells, rows
    {
      Shape() && IndexOk(cells[..], cellRanges)
    }

    /** What holds of the index after a failed removal from s. */
    ghost predicate ValidExcept(s: int)
      reads this, cells, rows
    {
      Shape() && IndexOkExcept(cells[..], cellRanges, s)
    }

    constructor (windowSize: Int32, canShift: bool, capacity: Int32, cachePadding: nat, maskBatchPadding: nat)
      requires 0 <= capacity
      requires RoundUp(capacity, if cachePadding == 0 then 1 else cachePadding) <= MAX_INT32
      ensures Valid() && fresh(cells) && fresh(rows)
      ensures capacity <= cells.Length < capacity + this.cachePadding
      ensures forall i | 0 <= i < cells.Length :: cells[i] == EMPTY
      ensures this.windowSize == windowSize && this.canShift == canShift && !hasLayers
      ensures this.cachePadding == (if cachePadding == 0 then 1 else cachePadding)
      ensures this.maskBatchPadding == (if maskBatchPadding == 0 then 1 else maskBatchPadding)
    {
      var pad := if cachePadding == 0 then 1 else cachePadding;
      RoundUpLeast(capacity, pad);
      this.windowSize := windowSize;
      this.canShift := canShift;
      this.cachePadding := pad;
      this.maskBatchPadding := if maskBatchPadding == 0 then 1 else maskBatchPadding;
      this.cells := new Cell[RoundUp(capacity, pad)](_ => EMPTY);
      this.rows := new Row[RoundUp(capacity, pad)](_ => Row(0, 0));
      this.cellRanges := map[];
      this.hasLayers := false;
      this.curLoc, this.curBatchSize, this.curCellRange, this.curMask := 0, 0, NEW_RANGE, NO_MASK;
      new;
      forall s ensures Listed(cells[..], cellRanges, s) {
      }
    }

    /** First fit: the first run of free cells that is long enough. */
    method FindStartLoc() returns (r: Option<nat>)
      ensures r.Some? ==> FirstBlock(cells[..], r.value, Wanted(curBatchSize))
      ensures r.None? ==> !HasBlock(cells[..], Wanted(curBatchSize))
    {
      var start, count := 0, 0;
      ghost var n := Wanted(curBatchSize);
      for i := 0 to cells.Length
        invariant start + count == i && count < n
        invariant forall j | start <= j < i :: !Occupied(cells[j])
        invariant start > 0 ==> Occupied(cells[start - 1])
        invariant forall k | 0 <= k && k + n <= i :: !FreeBlock(cells[..], k, n)
      {
        if !Occupied(cells[i]) {
          count := count + 1;
          if count >= curBatchSize {
            assert FreeBlock(cells[..], start, n);
            return Some(start);
          }
        } else {
          start := i + 1;
          count := 0;
        }
      }
      return None;
    }

    /** Copies a block of rows, as one tensor copy does. */
    method CopyRows(b: Block)
      requires BlockFits(b, rows.Length) && b.dst + b.len <= b.src
      modifies rows
      ensures rows[..] == CopyBlock(old(rows[..]), b)
    {
      for k := 0 to b.len
        invariant forall i | 0 <= i < rows.Length ::
          rows[i] == if b.dst <= i < b.dst + k then old(rows[b.src + (i - b.dst)]) else old(rows[i])
      {
        rows[b.dst + k] := rows[b.src + k];
      }
    }

    method Defrag()
      requires Valid() && hasLayers
      modifies this`cellRanges, cells, rows
      ensures Valid()
      ensures cells[..] == Compacted(old(cells[..]))
      ensures rows[..] == CompactedRows(old(cells[..]), old(rows[..]))
    {
      MoveAll();
      forall s | s !in cellRanges
        ensures forall i | 0 <= i < cells.Length :: s !in cells[i].sequences
      {
        assert old(Listed(cells[..], cellRanges, s));
        CompactedSequences(old(cells[..]), s);
        assert forall i | 0 <= i < cells.Length :: cells[i] == cells[..][i];
      }
      ResetRanges();
    }

    method ResetRanges()
      requires Shape()
      requires forall s | s !in cellRanges :: forall i | 0 <= i < cells.Length :: s !in cells[i].sequences
      modifies this`cellRanges
      ensures Valid()
    {
      var todo := cellRanges.Keys;
      while todo != {}
        invariant todo <= cellRanges.Keys == old(cellRanges.Keys)
        invariant forall s | s in cellRanges && s !in todo :: ExactRange(cells[..], s, cellRanges[s])
        decreases |todo|
      {
        SomeInt(todo);
        var s :| s in todo;
        var r := Scan(s);
        cellRanges := cellRanges[s := r];
        todo := todo - {s};
      }
      forall s
        ensures Listed(cells[..], cellRanges, s)
      {
      }
    }

    /** The range in which a scan finds sequence s. */
    method Scan(s: int) returns (r: Range)
      requires cells.Length <= MAX_INT32
      ensures ExactRange(cells[..], s, r)
    {
      r := NEW_RANGE;
      for i := 0 to cells.Length
        invariant ExactTo(cells[..], s, r, i)
      {
        if s in cells[i].sequences {
          r := Widen(r, i);
        }
      }
    }

    /** The last occupied cell of (dst, src], or dst. */
    method NextSource(dst: nat, src: int) returns (r: int)
      requires dst <= src < cells.Length
      ensures dst <= r <= src && (r > dst ==> Occupied(cells[r]))
      ensures forall i | r < i <= src :: !Occupied(cells[i])
    {
      r := src;
      while r > dst && !Occupied(cells[r])
        invariant dst <= r <= src
        invariant forall i | r < i <= src :: !Occupied(cells[i])
      {
        r := r - 1;
      }
    }

    /** Moves one cell; its row is copied now or together with later ones. The
        pending block is the last of the blocks so far, not yet copied. */
    method MoveOne(m: Move, pending: Block, ghost r0: seq<Row>, ghost bs: seq<Block>) returns (next: Block)
      requires cells.Length == rows.Length == |r0| && m.src < cells.Length && m.dst < cells.Length
      requires BlocksOk(bs, |r0|) && BlocksOk(AddMove(bs, m), |r0|)
      requires IsPending(pending, bs) && rows[..] == CopyBlocks(r0, bs, Flushed(bs))
      modifies cells, rows
      ensures cells[..] == MoveCell(old(cells[..]), m)
      ensures IsPending(next, AddMove(bs, m))
      ensures rows[..] == CopyBlocks(r0, AddMove(bs, m), Flushed(AddMove(bs, m)))
    {
      hide BlocksOk, CopyBlocks;
      cells[m.dst] := cells[m.src];
      cells[m.src] := EMPTY;
      PendingOk(r0, bs, m, pending);
      if pending.len > 0 && Extends(pending, m) {
        next := Block(m.src, pending.dst, pending.len + 1);
      } else {
        if pending.len > 0 {
          CopyRows(pending);
        }
        next := Block(m.src, m.dst, 1);
      }
    }

    /** The two-pointer walk: src is drawn down from the end, dst up from the start. */
    method MoveAll()
      requires cells.Length == rows.Length
      modifies cells, rows
      ensures cells[..] == Compacted(old(cells[..]))
      ensures rows[..] == CompactedRows(old(cells[..]), old(rows[..]))
    {
      hide *;
      ghost var c0, r0 := cells[..], rows[..];
      ghost var ms := Moves(c0);
      MoveListFillsHoles(c0, 0, |c0| - 1);
      var pending := Block(0, 0, 0);
      var src := cells.Length - 1;
      var dst := 0;
      ghost var hi := src;   // everything in [dst, hi] is still as it was
      ghost var n := 0;      // the moves made so far
      CompactedStart(c0, r0);
      while dst < src
        invariant 0 <= dst && src < cells.Length && n <= |ms|
        invariant hi == src || (0 <= hi == src - 1 && !Occupied(cells[src]))
        invariant MoveList(c0, dst, hi) == ms[n..]
        invariant cells[..] == MoveCells(c0, ms, n)
        invariant forall i | dst <= i <= hi :: cells[i] == c0[i]
        invariant BlocksOk(Blocks(ms, n), |r0|) && AllFit(Blocks(ms, n), |r0|)
        invariant IsPending(pending, Blocks(ms, n)) && Flushed(Blocks(ms, n)) <= |Blocks(ms, n)|
        invariant rows[..] == CopyBlocks(r0, Blocks(ms, n), Flushed(Blocks(ms, n)))
        decreases src - dst
      {
        if !Occupied(cells[dst]) {
          src := NextSource(dst, src);
          assert forall i | src < i <= hi :: !Occupied(c0[i]);
          SkipHoles(c0, dst, hi, if src <= hi then src else hi);
          if src > dst {
            StepMove(c0, ms, n, dst, src);
            ghost var before := cells[..];
            pending := MoveOne(Move(src, dst), pending, r0, Blocks(ms, n));
            MoveCellAt(before, Move(src, dst));
            assert forall i | dst < i < src :: cells[i] == cells[..][i] == before[i];
            n := n + 1;
            hi := src - 1;
          } else {
            NoMoreMoves(c0, dst, dst);
            NoMoreMoves(c0, dst + 1, dst);
            hi := src;
          }
        } else {
          SkipOccupied(c0, dst, hi);
        }
        dst := dst + 1;
      }
      NoMoreMoves(c0, dst, hi);
      FlushAll(r0, Blocks(ms, n), pending);
      if pending.len > 0 {
        CopyRows(pending);
      }
      CompactedEnd(c0, r0);
    }

    /** Reserves a block of cells for a batch and builds its mask. The batch is
        refused exactly when fewer cells are free than it needs. If the tensor of the
        mask cannot be made (maskOk), the call fails with the batch already stored. */
    method StartForward(positions: seq<Int32>, seqs: seq<int>, maskOk: bool) returns (r: Outcome)
      requires Valid() && |positions| == |seqs|
      requires hasLayers || HasBlock(cells[..], Wanted(|positions|))
      modifies this`cellRanges, this`curLoc, this`curBatchSize, this`curCellRange, this`curMask, cells, rows
      ensures Valid() && curBatchSize == |positions|
      ensures r == Reply(old(cells[..]), |positions|, maskOk)
      ensures r == Fail(CacheFull) <==>
        EmptyCount(old(cells[..])) == 0 || EmptyCount(old(cells[..])) < |positions|
      ensures rows[..] == BaseRows(old(cells[..]), old(rows[..]), |positions|)
      ensures r == Fail(CacheFull) ==> cells[..] == BaseCells(old(cells[..]), |positions|)
      ensures r != Fail(CacheFull) ==>
        && FirstBlock(BaseCells(old(cells[..]), |positions|), curLoc, Wanted(|positions|))
        && cells[..] == Overlay(BaseCells(old(cells[..]), |positions|), curLoc, BatchCells(positions, seqs))
      ensures r != Fail(CacheFull) && positions != [] ==>
        && Covers(curCellRange, cells[..], positions, seqs, windowSize)
        && Tight(curCellRange, cells[..], seqs, cachePadding)
        && curCellRange.min % cachePadding == 0 == (curCellRange.max + 1) % cachePadding
      ensures r.Pass? && positions != [] ==>
        MaskOk(curMask, curCellRange, cells[..], positions, seqs, windowSize, maskBatchPadding)
    {
      hide Tight, AttainedTo;
      hide IndexOk, BaseCells, BaseRows, HasBlock, FirstBlock, FreeBlock, Compacted, CompactedRows, EmptyCount;
      hide Covers, MaskOk;
      ghost var c0, r0 := cells[..], rows[..];
      curBatchSize := |positions|;
      BaseIs(c0, r0, |positions|);
      var loc := FindStartLoc();
      if loc.None? {
        Defrag();
        loc := FindStartLoc();
      }
      if loc.None? {
        curLoc := 0;
        return Fail(CacheFull);
      }
      FirstIsFree(cells[..], loc.value, |positions|);
      curLoc := loc.value;
      StoreBatch(positions, seqs);
      r := BuildMask(positions, seqs, maskOk);
    }

    method StoreBatch(positions: seq<Int32>, seqs: seq<int>)
      requires Valid() && |positions| == |seqs| && FreeBlock(cells[..], curLoc, |positions|)
      modifies this`cellRanges, this`curCellRange, cells
      ensures Valid()
      ensures cells[..] == Overlay(old(cells[..]), curLoc, BatchCells(positions, seqs))
      ensures if positions == [] then curCellRange == NEW_RANGE
              else 0 <= curCellRange.min <= curCellRange.max < cells.Length
      ensures forall t | 0 <= t < |seqs| :: Spans(curCellRange, cellRanges, seqs[t])
      ensures AttainedTo(curCellRange, cellRanges, seqs, |seqs|)
    {
      ghost var base := cells[..];
      curCellRange := NEW_RANGE;
      assert Valid();
      hide *;
      Storing(base, curLoc, positions, seqs);
      NothingAttained(cellRanges, seqs);
      for i := 0 to |positions|
        invariant Valid()
        invariant cells[..] == StoredTo(base, curLoc, positions, seqs, i)
        invariant if i == 0 then curCellRange == NEW_RANGE
                  else 0 <= curCellRange.min <= curCellRange.max < cells.Length
        invariant forall t | 0 <= t < i :: Spans(curCellRange, cellRanges, seqs[t])
        invariant AttainedTo(curCellRange, cellRanges, seqs, i)
      {
        StoringNext(base, curLoc, positions, seqs, i);
        assert cells[curLoc + i] == cells[..][curLoc + i];
        StoreNext(positions, seqs, i);
      }
    }

    /** Stores token i of a batch. */
    method StoreNext(positions: seq<Int32>, seqs: seq<int>, i: nat)
      requires Valid() && i < |positions| == |seqs| && curLoc + i < cells.Length && !Occupied(cells[curLoc + i])
      requires if i == 0 then curCellRange == NEW_RANGE
               else 0 <= curCellRange.min <= curCellRange.max < cells.Length
      requires forall t | 0 <= t < i :: Spans(curCellRange, cellRanges, seqs[t])
      requires AttainedTo(curCellRange, cellRanges, seqs, i)
      modifies this`cellRanges, this`curCellRange, cells
      ensures Valid()
      ensures cells[..] == old(cells[..])[curLoc + i := Cell(positions[i], [seqs[i]])]
      ensures 0 <= curCellRange.min <= curCellRange.max < cells.Length
      ensures forall t | 0 <= t < i + 1 :: Spans(curCellRange, cellRanges, seqs[t])
      ensures AttainedTo(curCellRange, cellRanges, seqs, i + 1)
    {
      hide IndexOk, AttainedTo, Spans, Widen;
      StoredRange(cells[..], cellRanges, curLoc + i, seqs[i]);
      AttainedMore(curCellRange, cellRanges, seqs, i, curLoc + i);
      StoreOne(curLoc + i, positions[i], seqs[i], i == 0);
    }

    /** Stores one token and widens the range of its sequence and of the batch. */
    method StoreOne(k: nat, pos: Int32, s: int, first: bool)
      requires Valid() && k < cells.Length && !Occupied(cells[k])
      requires if first then curCellRange == NEW_RANGE
               else 0 <= curCellRange.min <= curCellRange.max < cells.Length
      modifies this`cellRanges, this`curCellRange, cells
      ensures Valid()
      ensures cells[..] == old(cells[..])[k := Cell(pos, [s])]
      ensures 0 <= curCellRange.min <= curCellRange.max < cells.Length
      ensures forall t | t == s || old(Spans(curCellRange, cellRanges, t)) :: Spans(curCellRange, cellRanges, t)
      ensures cellRanges == old(cellRanges)[s := Widen(RangeOf(old(cellRanges), s), k)]
      ensures curCellRange == Join(old(curCellRange), Widen(RangeOf(old(cellRanges), s), k))
    {
      hide IndexOk;
      StoreKeepsIndex(cells[..], cellRanges, k, pos, s);
      StoredRange(cells[..], cellRanges, k, s);
      cells[k] := Cell(pos, [s]);
      var seqRange := Widen(RangeOf(cellRanges, s), k);
      curCellRange := Range(if seqRange.min < curCellRange.min then seqRange.min else curCellRange.min,
                            if seqRange.max > curCellRange.max then seqRange.max else curCellRange.max);
      cellRanges := cellRanges[s := seqRange];
    }

    /** Rounds the window of the batch outwards and computes its mask; without its
        tensor there is none. */
    method BuildMask(positions: seq<Int32>, seqs: seq<int>, maskOk: bool) returns (r: Outcome)
      requires Valid() && |positions| == |seqs| == curBatchSize
      requires if positions == [] then curCellRange == NEW_RANGE
               else 0 <= curCellRange.min <= curCellRange.max < cells.Length
      requires forall t | 0 <= t < |seqs| :: Spans(curCellRange, cellRanges, seqs[t])
      requires AttainedTo(curCellRange, cellRanges, seqs, |seqs|)
      modifies this`curCellRange, this`curMask
      ensures r == if maskOk then Pass else Fail(BackendError)
      ensures positions != [] ==>
        && Covers(curCellRange, cells[..], positions, seqs, windowSize)
        && Tight(curCellRange, cells[..], seqs, cachePadding)
        && curCellRange.min % cachePadding == 0 == (curCellRange.max + 1) % cachePadding
      ensures maskOk && positions != [] ==>
        MaskOk(curMask, curCellRange, cells[..], positions, seqs, windowSize, maskBatchPadding)
      ensures !maskOk ==> curMask == NO_MASK
    {
      hide Tight, AttainedTo, MaskOk, Covers, WantOpen;
      var batchSize := RoundUp(curBatchSize, maskBatchPadding);
      ghost var inner := curCellRange;
      curCellRange := Range(RoundDown(curCellRange.min, cachePadding), RoundUp(curCellRange.max + 1, cachePadding) - 1);
      var length := curCellRange.max - curCellRange.min + 1;
      if curBatchSize == 0 {
        curMask := if maskOk then Mask([], length, batchSize) else NO_MASK;
        return if maskOk then Pass else Fail(BackendError);
      }
      RoundedWindow(inner, cachePadding, cells.Length);
      WindowCovers(cells[..], cellRanges, curCellRange, positions, seqs, windowSize);
      WindowTight(cells[..], cellRanges, inner, curCellRange, seqs, cachePadding);
      RoundUpLeast(curBatchSize, maskBatchPadding);
      MulLeq(curBatchSize, batchSize, length);
      var open := new bool[batchSize * length](_ => true);
      FillMask(open, length, positions, seqs);
      ClosePadding(open, curBatchSize * length);
      if !maskOk {
        curMask := NO_MASK;
        return Fail(BackendError);
      }
      curMask := Mask(open[..], length, batchSize);
      MaskFilled(curMask, curCellRange, cells[..], positions, seqs, windowSize, maskBatchPadding);
      return Pass;
    }

    method ClosePadding(open: array<bool>, start: nat)
      requires start <= open.Length
      modifies open
      ensures open[..start] == old(open[..start])
      ensures forall i | start <= i < open.Length :: !open[i]
    {
      for k := start to open.Length
        invariant open[..start] == old(open[..start])
        invariant forall i | start <= i < k :: !open[i]
      {
        open[k] := false;
      }
    }

    method FillMask(open: array<bool>, length: nat, positions: seq<Int32>, seqs: seq<int>)
      requires 0 <= curCellRange.min <= curCellRange.max < cells.Length
      requires length == curCellRange.max - curCellRange.min + 1
      requires |positions| == |seqs| == curBatchSize && curBatchSize * length <= open.Length
      requires forall i | 0 <= i < open.Length :: open[i]
      modifies open
      ensures forall i | 0 <= i < curBatchSize * length ::
        open[i] <==> WantOpen(curCellRange, cells[..], positions, seqs, windowSize, length, i)
      ensures forall i | curBatchSize * length <= i < open.Length :: open[i]
    {
      ghost var slot := 0;
      for i := 0 to curBatchSize
        invariant slot == i * length
        invariant forall k | 0 <= k < slot && k < open.Length ::
          open[k] <==> WantOpen(curCellRange, cells[..], positions, seqs, windowSize, length, k)
        invariant forall k | slot <= k < open.Length :: open[k]
      {
        MulLeq(i + 1, curBatchSize, length);
        assert (i + 1) * length == i * length + length;
        for j := curCellRange.min to curCellRange.max + 1
          invariant slot == i * length + (j - curCellRange.min)
          invariant forall k | 0 <= k < slot && k < open.Length ::
            open[k] <==> WantOpen(curCellRange, cells[..], positions, seqs, windowSize, length, k)
          invariant forall k | slot <= k < open.Length :: open[k]
        {
          SlotOf(i, j - curCellRange.min, length);
          if !Visible(cells[j], seqs[i], positions[i], windowSize) {
            open[i * length + (j - curCellRange.min)] := false;
          }
          slot := slot + 1;
        }
      }
    }

    /** Writes the keys and values of the batch into its cells. */
    method Put(batch: seq<Row>)
      requires |batch| == curBatchSize && curLoc + |batch| <= rows.Length
      modifies rows, this`hasLayers
      ensures hasLayers && rows[..] == Overlay(old(rows[..]), curLoc, batch)
    {
      for i := 0 to |batch|
        invariant rows[..] == Overlay(old(rows[..]), curLoc, batch[..i])
      {
        OverlayMore(old(rows[..]), curLoc, batch, i);
        rows[curLoc + i] := batch[i];
      }
      assert batch[..|batch|] == batch;
      hasLayers := true;
    }

    /** Makes dst share the cells of src below position len. */
    method CopyPrefix(src: int, dst: int, len: Int32)
      requires Valid()
      modifies this`cellRanges, cells
      ensures Valid()
      ensures IsCopy(old(cells[..]), cells[..], src, dst, len)
      ensures old(InPhase(cells[..], rows[..])) ==> InPhase(cells[..], rows[..])
    {
      hide IndexOk, ExactTo, CopyCell, InPhase;
      ghost var c0 := cells[..];
      var seqRange := NEW_RANGE;
      NothingYet(c0, dst);
      for i := 0 to cells.Length
        invariant forall j | 0 <= j < i :: cells[j] == CopyCell(c0[j], src, dst, len)
        invariant forall j | i <= j < cells.Length :: cells[j] == c0[j]
        invariant ExactTo(cells[..], dst, seqRange, i)
        invariant cellRanges == old(cellRanges)
      {
        ghost var before := cells[..];
        var shared := CopyAt(i, src, dst, len);
        ExactMore(before, cells[..], dst, seqRange, i);
        if shared {
          seqRange := Widen(seqRange, i);
        }
      }
      CopyKeepsIndex(c0, cells[..], cellRanges, src, dst, len, seqRange);
      if InPhase(c0, rows[..]) {
        CopyKeepsPhase(c0, rows[..], cells[..], src, dst, len);
      }
      cellRanges := cellRanges[dst := seqRange];
    }

    method CopyAt(i: nat, src: int, dst: int, len: Int32) returns (shared: bool)
      requires i < cells.Length
      modifies cells
      ensures cells[..] == old(cells[..])[i := CopyCell(old(cells[i]), src, dst, len)]
      ensures shared <==> dst in cells[i].sequences
    {
      if dst in cells[i].sequences {
        cells[i] := Cell(cells[i].pos, Drop(cells[i].sequences, dst));
      }
      shared := src in cells[i].sequences && cells[i].pos < len;
      if shared {
        cells[i] := Cell(cells[i].pos, cells[i].sequences + [dst]);
      }
    }

    /** Rotates the keys of sequence s from position beginIndex on by offset. */
    method Shift(s: int, beginIndex: Int32, offset: Int32, backendOk: bool) returns (r: Outcome)
      requires Shape() && s in cellRanges && cellRanges[s] != NEW_RANGE && ExactRange(cells[..], s, cellRanges[s])
      modifies rows
      ensures r == if !canShift then Fail(NotSupported) else if !backendOk then Fail(BackendError) else Pass
      ensures if r.Pass? then ShiftedRows(cells[..], old(rows[..]), rows[..], s, beginIndex, offset)
              else rows[..] == old(rows[..])
    {
      if !canShift {
        return Fail(NotSupported);
      }
      hide ExactRange, ShiftedRows, RotateRange, ShiftOffsets;
      var seqRange := cellRanges[s];
      RangeInBounds(cells[..], s, seqRange);
      var offsets := Offsets(s, seqRange, beginIndex, offset);
      if !backendOk {
        return Fail(BackendError);
      }
      Rotate(seqRange.min, offsets);
      OnlyWithin(cells[..], old(rows[..]), s, seqRange, beginIndex, offset);
      return Pass;
    }

    method Rotate(start: nat, offsets: array<Int32>)
      requires start + offsets.Length <= rows.Length
      modifies rows
      ensures rows[..] == RotateRange(old(rows[..]), start, offsets[..])
    {
      for i := 0 to offsets.Length
        invariant forall j | 0 <= j < rows.Length ::
          rows[j] == if start <= j < start + i then RotateRow(old(rows[j]), offsets[j - start]) else old(rows[j])
      {
        rows[start + i] := RotateRow(rows[start + i], offsets[i]);
      }
    }

    /** How far to rotate each key of the range. */
    method Offsets(s: int, r: Range, beginIndex: Int32, offset: Int32) returns (offsets: array<Int32>)
      requires 0 <= r.min <= r.max < cells.Length
      ensures fresh(offsets) && offsets[..] == ShiftOffsets(cells[..], s, r, beginIndex, offset)
    {
      offsets := new Int32[r.max - r.min + 1](_ => 0);
      for i := 0 to offsets.Length
        invariant forall j | 0 <= j < offsets.Length ::
          offsets[j] == if j < i && Rotated(cells[r.min + j], s, beginIndex) then offset else 0
      {
        if Rotated(cells[r.min + i], s, beginIndex) {
          offsets[i] := offset;
        }
      }
    }

    /** Cuts [begin, end) out of sequence s and renumbers what follows. Fails when
        a cell to be renumbered is shared, leaving the cells from there on as they
        were, or when the keys cannot be rotated. */
    method Remove(s: int, begin: Int32, end: Int32, backendOk: bool) returns (r: Outcome, ghost stopped: nat)
      requires ValidExcept(s)
      modifies this`cellRanges, cells, rows
      ensures RemovedTo(old(cells[..]), cells[..], s, begin, end, stopped)
      ensures r == Fail(SharedCells) <==> stopped < cells.Length
      ensures r == Fail(SharedCells) ==> Blocked(old(cells[..])[stopped], s, begin, end)
      ensures if r == Fail(SharedCells) then ValidExcept(s) && cellRanges == old(cellRanges) else Valid()
      ensures r.Pass? && (forall i | 0 <= i < cells.Length :: s !in cells[i].sequences) ==> s !in cellRanges
      ensures r.Fail? && r.error != SharedCells ==>
        end != MAX_INT32 && s in cellRanges && r.error == if canShift then BackendError else NotSupported
      ensures if r.Pass? && end != MAX_INT32
              then ShiftedRows(cells[..], old(rows[..]), rows[..],
                               s, Wrap32(end + Offset(begin, end)), Offset(begin, end))
              else rows[..] == old(rows[..])
      ensures RemoveViews(old(cells[..]), old(rows[..]), cells[..], rows[..], s, begin, end, stopped == cells.Length)
      ensures r.Pass? && 0 <= begin <= end && old(InPhase(cells[..], rows[..])) ==> InPhase(cells[..], rows[..])
      ensures r.Fail? && old(InPhase(cells[..], rows[..])) ==> InPhaseBut(cells[..], rows[..], s)
    {
      hide IndexOkExcept, IndexOk, ExactRange, ShiftedRows, RemoveViews, InPhase, InPhaseBut;
      ghost var c0, r0 := cells[..], rows[..];
      var seqRange: Range;
      r, seqRange, stopped := RemoveCells(s, begin, end);
      RemoveKeepsIndex(c0, cells[..], cellRanges, s, begin, end, stopped);
      if r.Fail? {
        RemoveHasViews(c0, r0, cells[..], r0, s, begin, end, stopped);
        if InPhase(c0, r0) {
          FailureKeepsPhase(c0, r0, cells[..], s, begin, end, stopped);
        }
        return;
      }
      RestoreIndex(cells[..], cellRanges, s, seqRange);
      AbsentRange(cells[..], s, seqRange);
      if seqRange == NEW_RANGE {
        cellRanges := cellRanges - {s};
        NothingToShift(cells[..], r0, s, Wrap32(end + Offset(begin, end)), Offset(begin, end));
      } else {
        cellRanges := cellRanges[s := seqRange];
        if end != MAX_INT32 {
          r := Shift(s, Wrap32(end + Offset(begin, end)), Offset(begin, end), backendOk);
        }
      }
      RemoveEnds(c0, r0, cells[..], rows[..], s, begin, end, r.Pass?);
    }

    /** The scan of Remove over the cells. */
    method RemoveCells(s: int, begin: Int32, end: Int32) returns (r: Outcome, seqRange: Range, ghost stopped: nat)
      requires cells.Length <= MAX_INT32
      modifies cells
      ensures RemovedTo(old(cells[..]), cells[..], s, begin, end, stopped)
      ensures r == if stopped < cells.Length then Fail(SharedCells) else Pass
      ensures if r.Pass? then ExactTo(cells[..], s, seqRange, cells.Length) && ExactRange(cells[..], s, seqRange)
              else Blocked(old(cells[..])[stopped], s, begin, end)
    {
      hide ExactTo, RemoveCell, Blocked, ExactRange;
      ghost var c0 := cells[..];
      seqRange := NEW_RANGE;
      NothingYet(c0, s);
      for i := 0 to cells.Length
        invariant forall j | 0 <= j < i ::
          cells[j] == RemoveCell(c0[j], s, begin, end) && !Blocked(c0[j], s, begin, end)
        invariant forall j | i <= j < cells.Length :: cells[j] == c0[j]
        invariant ExactTo(cells[..], s, seqRange, i)
      {
        ghost var before := cells[..];
        var ok, kept := RemoveAt(i, s, begin, end);
        if !ok {
          return Fail(SharedCells), seqRange, i;
        }
        ExactMore(before, cells[..], s, seqRange, i);
        if kept {
          seqRange := Widen(seqRange, i);
        }
      }
      ExactEnd(cells[..], s, seqRange);
      return Pass, seqRange, cells.Length;
    }

    method RemoveAt(i: nat, s: int, begin: Int32, end: Int32) returns (ok: bool, kept: bool)
      requires i < cells.Length
      modifies cells
      ensures ok <==> !Blocked(old(cells[i]), s, begin, end)
      ensures cells[..] == if ok then old(cells[..])[i := RemoveCell(old(cells[i]), s, begin, end)] else old(cells[..])
      ensures ok ==> (kept <==> s in cells[i].sequences)
    {
      var c := cells[i];
      if s in c.sequences {
        if begin <= c.pos < end {
          cells[i] := Cell(c.pos, Drop(c.sequences, s));
        } else {
          if end <= c.pos {
            if exists x | x in c.sequences :: x != s {
              return false, false;
            }
            cells[i] := Cell(Wrap32(c.pos + Offset(begin, end)), c.sequences);
          }
          return true, true;
        }
      }
      return true, false;
    }

    /** What the cache documents for after a failed removal: forget the sequence
        altogether. */
    method Forget(s: int) returns (r: Outcome)
      requires ValidExcept(s) && Recoverable(cells[..], s)
      modifies this`cellRanges, cells, rows
      ensures Valid() && r == Pass && s !in cellRanges
      ensures RemovedTo(old(cells[..]), cells[..], s, 0, MAX_INT32, cells.Length) && rows[..] == old(rows[..])
      ensures old(InPhaseBut(cells[..], rows[..], s)) ==> InPhase(cells[..], rows[..])
      ensures Tokens(cells[..], rows[..], s) == multiset{}
      ensures forall other | other != s :: Tokens(cells[..], rows[..], other) == old(Tokens(cells[..], rows[..], other))
    {
      hide IndexOkExcept, Tokens, InPhase, InPhaseBut;
      ghost var c0 := cells[..];
      RecoveryEmpties(c0, s);
      ghost var stopped;
      r, stopped := Remove(s, 0, MAX_INT32, true);
      AllGone(c0, cells[..], rows[..], s, stopped);
      if InPhaseBut(c0, rows[..], s) {
        RecoveryKeepsPhase(c0, cells[..], rows[..], s);
      }
      assert forall i | 0 <= i < cells.Length :: cells[i] == cells[..][i];
    }

    /** One forward pass of the model: reserve cells, then store their rows. Without
        a mask nothing is computed, and the cells are left with the rows they had. */
    method Forward(positions: seq<Int32>, seqs: seq<int>, batch: seq<Row>, maskOk: bool) returns (r: Outcome)
      requires Valid() && |positions| == |seqs| == |batch|
      requires hasLayers || HasBlock(cells[..], Wanted(|positions|))
      modifies this
      modifies cells, rows
      ensures Valid()
      ensures r == Reply(old(cells[..]), |positions|, maskOk)
      ensures maskOk ==> Forwarded(old(Contents()), positions, seqs, batch, curLoc, Contents())
      ensures forall s ::
        Positions(cells[..], s)
        == old(Positions(cells[..], s))
           + if r == Fail(CacheFull) then multiset{} else Positions(BatchCells(positions, seqs), s)
      ensures maskOk && old(KeepsRows(cells[..], |positions|)) ==> forall s ::
        Tokens(cells[..], rows[..], s)
        == old(Tokens(cells[..], rows[..], s))
           + if r.Pass? then Tokens(BatchCells(positions, seqs), batch, s) else multiset{}
      ensures maskOk && old(KeepsRows(cells[..], |positions|)) && Rotary(batch, positions) ==>
        old(InPhase(cells[..], rows[..])) ==> InPhase(cells[..], rows[..])
    {
      hide IndexOk, BaseCells, BaseRows, Tokens, Positions, EmptyCount, Covers, MaskOk, InPhase, KeepsRows, Overlay;
      ghost var c0, r0 := cells[..], rows[..];
      r := StartForward(positions, seqs, maskOk);
      if r == Fail(CacheFull) {
        BaseViews(c0, r0, |positions|);
        return;
      }
      FirstIsFree(BaseCells(c0, |positions|), curLoc, |positions|);
      ForwardViews(c0, r0, positions, seqs, batch, curLoc);
      if r.Pass? {
        Put(batch);
      }
    }
  }

  /** Each key of the batch has been rotated to its position. */
  ghost predicate Rotary(batch: seq<Row>, positions: seq<Int32>)
    requires |batch| == |positions|
  {
    forall i | 0 <= i < |batch| :: batch[i].phase == positions[i]
  }

  /** Storing a batch of n tokens moves no two rows as one block. */
  ghost predicate KeepsRows(cells: seq<Cell>, n: nat) {
    HasBlock(cells, Wanted(n)) || !Merges(Moves(cells), |Moves(cells)|)
  }

  /** Making room for a batch, as far as the views can tell. */
  lemma BaseViews(cells: seq<Cell>, rows: seq<Row>, n: nat)
    requires |cells| == |rows|
    ensures forall s :: Positions(BaseCells(cells, n), s) == Positions(cells, s)
    ensures KeepsRows(cells, n) ==> forall s ::
      Tokens(BaseCells(cells, n), BaseRows(cells, rows, n), s) == Tokens(cells, rows, s)
    ensures KeepsRows(cells, n) && InPhase(cells, rows) ==> InPhase(BaseCells(cells, n), BaseRows(cells, rows, n))
  {
    hide Tokens, Positions, InPhase, Compacted, CompactedRows;
    if !HasBlock(cells, Wanted(n)) {
      forall s
        ensures Positions(BaseCells(cells, n), s) == Positions(cells, s)
        ensures KeepsRows(cells, n) ==>
          Tokens(BaseCells(cells, n), BaseRows(cells, rows, n), s) == Tokens(cells, rows, s)
      {
        CompactedKeepsPositions(cells, s);
        if KeepsRows(cells, n) {
          UnmergedKeepsTokens(cells, rows, s);
        }
      }
      if KeepsRows(cells, n) && InPhase(cells, rows) {
        UnmergedKeepsPhase(cells, rows);
      }
    }
  }

  lemma ForwardViews(cells: seq<Cell>, rows: seq<Row>, positions: seq<Int32>, seqs: seq<int>, batch: seq<Row>, loc: nat)
    requires |cells| == |rows| && |positions| == |seqs| == |batch|
    requires FreeBlock(BaseCells(cells, |positions|), loc, |positions|)
    ensures var cells' := Overlay(BaseCells(cells, |positions|), loc, BatchCells(positions, seqs));
      var rows' := Overlay(BaseRows(cells, rows, |positions|), loc, batch);
      && (forall s :: Positions(cells', s) == Positions(cells, s) + Positions(BatchCells(positions, seqs), s))
      && (KeepsRows(cells, |positions|) ==> forall s ::
            Tokens(cells', rows', s) == Tokens(cells, rows, s) + Tokens(BatchCells(positions, seqs), batch, s))
      && (KeepsRows(cells, |positions|) && InPhase(cells, rows) && Rotary(batch, positions) ==> InPhase(cells', rows'))
  {
    hide Tokens, Positions, BaseCells, BaseRows, KeepsRows;
    var base, baseRows := BaseCells(cells, |positions|), BaseRows(cells, rows, |positions|);
    var cs := BatchCells(positions, seqs);
    BaseViews(cells, rows, |positions|);
    forall s
      ensures Positions(Overlay(base, loc, cs), s) == Positions(cells, s) + Positions(cs, s)
      ensures KeepsRows(cells, |positions|) ==>
        Tokens(Overlay(base, loc, cs), Overlay(baseRows, loc, batch), s)
        == Tokens(cells, rows, s) + Tokens(cs, batch, s)
    {
      BatchAddsPositions(base, loc, cs, s);
      BatchAddsTokens(base, baseRows, loc, cs, batch, s);
    }
  }

  lemma ExactEnd(cells: seq<Cell>, s: int, r: Range)
    requires ExactTo(cells, s, r, |cells|)
    ensures ExactRange(cells, s, r)
  {
  }

  lemma RangeInBounds(cells: seq<Cell>, s: int, r: Range)
    requires ExactRange(cells, s, r) && r != NEW_RANGE
    ensures 0 <= r.min <= r.max < |cells|
  {
  }

  lemma AbsentRange(cells: seq<Cell>, s: int, r: Range)
    requires ExactRange(cells, s, r)
    ensures (forall i | 0 <= i < |cells| :: s !in cells[i].sequences) ==> r == NEW_RANGE
  {
  }

  lemma NothingToShift(cells: seq<Cell>, rows: seq<Row>, s: int, beginIndex: Int32, offset: Int32)
    requires |cells| == |rows| && |cells| <= MAX_INT && ExactRange(cells, s, NEW_RANGE)
    ensures ShiftedRows(cells, rows, rows, s, beginIndex, offset)
  {
  }

  lemma RemoveEnds(cells: seq<Cell>, rows: seq<Row>, cells': seq<Cell>, rows': seq<Row>,
                   s: int, begin: Int32, end: Int32, shifted: bool)
    requires |cells| == |rows| == |rows'| && RemovedTo(cells, cells', s, begin, end, |cells|)
    requires if shifted && end != MAX_INT32
             then ShiftedRows(cells', rows, rows', s, Wrap32(end + Offset(begin, end)), Offset(begin, end))
             else rows' == rows
    ensures RemoveViews(cells, rows, cells', rows', s, begin, end, true)
    ensures shifted && 0 <= begin <= end && InPhase(cells, rows) ==> InPhase(cells', rows')
    ensures !shifted && InPhase(cells, rows) ==> InPhaseBut(cells', rows', s)
  {
    hide InPhase, InPhaseBut, RemoveViews, RemovedTo;
    if !shifted && InPhase(cells, rows) {
      FailureKeepsPhase(cells, rows, cells', s, begin, end, |cells|);
    }
    RemoveHasViews(cells, rows, cells', rows', s, begin, end, |cells|);
    if shifted && 0 <= begin <= end && InPhase(cells, rows) {
      RemoveKeepsPhase(cells, rows, cells', rows', s, begin, end);
    }
  }

  lemma AllGone(cells: seq<Cell>, cells': seq<Cell>, rows: seq<Row>, s: int, stopped: nat)
    requires |cells| == |rows| && RemovedTo(cells, cells', s, 0, MAX_INT32, stopped) && Recoverable(cells, s)
    requires stopped < |cells| ==> Blocked(cells[stopped], s, 0, MAX_INT32)
    ensures stopped == |cells| && Tokens(cells', rows, s) == multiset{}
    ensures forall i | 0 <= i < |cells| :: s !in cells'[i].sequences
  {
    RecoveryEmpties(cells, s);
    forall e
      ensures e !in Tokens(cells', rows, s)
    {
      TokensWitness(cells', rows, s, e);
    }
  }

  ghost function RotateRange(rows: seq<Row>, start: nat, offsets: seq<Int32>): (r: seq<Row>)
    ensures |r| == |rows|
  {
    seq(|rows|, j requires 0 <= j < |rows| =>
      if start <= j < start + |offsets| then RotateRow(rows[j], offsets[j - start]) else rows[j])
  }

  ghost function ShiftOffsets(
      cells: seq<Cell>, s: int, r: Range, beginIndex: Int32, offset: Int32): (offsets: seq<Int32>)
    requires 0 <= r.min <= r.max < |cells|
    ensures |offsets| == r.max - r.min + 1
  {
    seq(r.max - r.min + 1, j requires 0 <= j < r.max - r.min + 1 =>
      if Rotated(cells[r.min + j], s, beginIndex) then offset else 0 as Int32)
  }

  /** Rotating within the range of the sequence rotates all its keys and no others. */
  lemma OnlyWithin(cells: seq<Cell>, rows: seq<Row>, s: int, r: Range, beginIndex: Int32, offset: Int32)
    requires |cells| == |rows| && ExactRange(cells, s, r) && 0 <= r.min <= r.max < |cells|
    ensures var rows' := RotateRange(rows, r.min, ShiftOffsets(cells, s, r, beginIndex, offset));
      ShiftedRows(cells, rows, rows', s, beginIndex, offset)
  {
    var rows' := RotateRange(rows, r.min, ShiftOffsets(cells, s, r, beginIndex, offset));
    forall j | 0 <= j < |rows|
      ensures rows'[j] == if Rotated(cells[j], s, beginIndex) then RotateRow(rows[j], offset) else rows[j]
    {
      Wrap32Identity(rows[j].phase + 0);
    }
  }

  /** What the mask is to say at index k of its flat array. */
  ghost predicate WantOpen(window: Range, cells: seq<Cell>, positions: seq<Int32>, seqs: seq<int>,
                           windowSize: Int32, length: nat, k: nat)
    requires length > 0 && |positions| == |seqs|
  {
    && k / length < |positions|
    && 0 <= window.min + k % length < |cells|
    && Visible(cells[window.min + k % length], seqs[k / length], positions[k / length], windowSize)
  }

  function Join(a: Range, b: Range): Range {
    Range(if b.min < a.min then b.min else a.min, if b.max > a.max then b.max else a.max)
  }

  predicate IsWindow(r: Range) {
    r.min <= r.max
  }

  /** The window is the least that reaches over the ranges of the first n sequences. */
  ghost predicate AttainedTo(w: Range, ranges: map<int, Range>, seqs: seq<int>, n: nat)
    requires n <= |seqs|
  {
    if n == 0 then w == NEW_RANGE
    else
      && (exists t :: 0 <= t < n && seqs[t] in ranges && IsWindow(ranges[seqs[t]]) && ranges[seqs[t]].min == w.min)
      && exists t :: 0 <= t < n && seqs[t] in ranges && IsWindow(ranges[seqs[t]]) && ranges[seqs[t]].max == w.max
  }

  /** The cells with the first i tokens of a batch in the block at loc. */
  ghost function StoredTo(base: seq<Cell>, loc: nat, positions: seq<Int32>, seqs: seq<int>, i: nat): (r: seq<Cell>)
    requires i <= |positions| == |seqs| && loc + |positions| <= |base|
    ensures |r| == |base|
  {
    Overlay(base, loc, BatchCells(positions, seqs)[..i])
  }

  lemma Storing(base: seq<Cell>, loc: nat, positions: seq<Int32>, seqs: seq<int>)
    requires |positions| == |seqs| && FreeBlock(base, loc, |positions|)
    ensures loc + |positions| <= |base|
    ensures StoredTo(base, loc, positions, seqs, 0) == base
    ensures StoredTo(base, loc, positions, seqs, |positions|) == Overlay(base, loc, BatchCells(positions, seqs))
  {
    var batch := BatchCells(positions, seqs);
    assert batch[..|batch|] == batch;
  }

  lemma StoringNext(base: seq<Cell>, loc: nat, positions: seq<Int32>, seqs: seq<int>, i: nat)
    requires i < |positions| == |seqs| && FreeBlock(base, loc, |positions|)
    ensures loc + |positions| <= |base| && !Occupied(StoredTo(base, loc, positions, seqs, i)[loc + i])
    ensures StoredTo(base, loc, positions, seqs, i + 1)
         == StoredTo(base, loc, positions, seqs, i)[loc + i := Cell(positions[i], [seqs[i]])]
  {
    OverlayMore(base, loc, BatchCells(positions, seqs), i);
  }

  lemma NothingAttained(ranges: map<int, Range>, seqs: seq<int>)
    ensures AttainedTo(NEW_RANGE, ranges, seqs, 0)
  {
  }

  lemma AttainedMore(w: Range, ranges: map<int, Range>, seqs: seq<int>, n: nat, k: nat)
    requires n < |seqs| && AttainedTo(w, ranges, seqs, n)
    requires var r := Widen(RangeOf(ranges, seqs[n]), k); 0 <= r.min <= k <= r.max && r.min <= MAX_INT
    ensures var r := Widen(RangeOf(ranges, seqs[n]), k);
      AttainedTo(Join(w, r), ranges[seqs[n] := r], seqs, n + 1)
  {
    var r := Widen(RangeOf(ranges, seqs[n]), k);
    var after, w' := ranges[seqs[n] := r], Join(w, r);
    assert after[seqs[n]] == r;
    if w'.min != r.min {
      var t :| 0 <= t < n && seqs[t] in ranges && IsWindow(ranges[seqs[t]]) && ranges[seqs[t]].min == w.min;
      assert seqs[t] in after && after[seqs[t]].min == w'.min;
    }
    if w'.max != r.max {
      var t :| 0 <= t < n && seqs[t] in ranges && IsWindow(ranges[seqs[t]]) && ranges[seqs[t]].max == w.max;
      assert seqs[t] in after && after[seqs[t]].max == w'.max;
    }
  }

  lemma WindowTight(cells: seq<Cell>, ranges: map<int, Range>, inner: Range, w: Range, seqs: seq<int>, pad: nat)
    requires IndexOk(cells, ranges) && seqs != [] && AttainedTo(inner, ranges, seqs, |seqs|)
    requires 0 <= inner.min <= inner.max < |cells| <= MAX_INT
    requires w.min <= inner.min < w.min + pad && w.max - pad < inner.max <= w.max
    ensures Tight(w, cells, seqs, pad)
  {
    var a :| 0 <= a < |seqs| && seqs[a] in ranges && IsWindow(ranges[seqs[a]]) && ranges[seqs[a]].min == inner.min;
    var b :| 0 <= b < |seqs| && seqs[b] in ranges && IsWindow(ranges[seqs[b]]) && ranges[seqs[b]].max == inner.max;
    assert Listed(cells, ranges, seqs[a]) && Listed(cells, ranges, seqs[b]);
    assert seqs[a] in cells[inner.min].sequences;
    assert seqs[b] in cells[inner.max].sequences;
  }

  lemma RoundedWindow(w: Range, pad: nat, size: nat)
    requires 0 < pad && size % pad == 0 && 0 <= w.min <= w.max < size
    ensures var r := Range(RoundDown(w.min, pad), RoundUp(w.max + 1, pad) - 1);
      && 0 <= r.min <= w.min && w.max <= r.max < size && r.min % pad == 0 == (r.max + 1) % pad
      && w.min < r.min + pad && r.max - pad < w.max
  {
    RoundDownBounds(w.min, pad);
    RoundUpLeast(w.max + 1, pad);
  }

  lemma WindowCovers(cells: seq<Cell>, ranges: map<int, Range>, w: Range,
                     positions: seq<Int32>, seqs: seq<int>, windowSize: Int32)
    requires IndexOk(cells, ranges) && |positions| == |seqs| && 0 <= w.min <= w.max < |cells|
    requires forall t | 0 <= t < |seqs| :: Spans(w, ranges, seqs[t])
    ensures Covers(w, cells, positions, seqs, windowSize)
  {
    forall i, j | 0 <= i < |positions| && 0 <= j < |cells| && Visible(cells[j], seqs[i], positions[i], windowSize)
      ensures w.min <= j <= w.max
    {
      assert Listed(cells, ranges, seqs[i]);
    }
  }

  lemma MaskFilled(m: Mask, w: Range, cells: seq<Cell>, positions: seq<Int32>, seqs: seq<int>,
                   windowSize: Int32, pad: nat)
    requires |positions| == |seqs| && 0 < pad && 0 <= w.min <= w.max < |cells|
    requires m.length == w.max - w.min + 1 && m.batchSize == RoundUp(|positions|, pad)
    requires |m.open| == m.batchSize * m.length && |positions| * m.length <= |m.open|
    requires forall k | 0 <= k < |positions| * m.length ::
      m.open[k] <==> WantOpen(w, cells, positions, seqs, windowSize, m.length, k)
    requires forall k | |positions| * m.length <= k < |m.open| :: !m.open[k]
    ensures MaskOk(m, w, cells, positions, seqs, windowSize, pad)
  {
    forall i, j | 0 <= i < |positions| && w.min <= j <= w.max
      ensures IsOpen(m, w, i, j) <==> Visible(cells[j], seqs[i], positions[i], windowSize)
    {
      SlotOf(i, j - w.min, m.length);
      MulLeq(i + 1, |positions|, m.length);
      assert m.open[Slot(m, w, i, j)] <==> WantOpen(w, cells, positions, seqs, windowSize, m.length, Slot(m, w, i, j));
    }
  }

  lemma SlotOf(i: nat, c: nat, length: nat)
    requires c < length
    ensures (i * length + c) / length == i && (i * length + c) % length == c
    ensures i * length + c < (i + 1) * length
  {
    var k := i * length + c;
    var q, r := k / length, k % length;
    assert k == q * length + r;
    assert (i + 1) * length == i * length + length;
    if q < i {
      MulLess(q, i, length);
    } else if i < q {
      MulLess(i, q, length);
    }
  }

  /** The window reaches over the whole range of sequence s. */
  ghost predicate Spans(window: Range, ranges: map<int, Range>, s: int) {
    s in ranges && window.min <= ranges[s].min && ranges[s].max <= window.max
  }

  lemma BaseIs(cells: seq<Cell>, rows: seq<Row>, n: nat)
    requires |cells| == |rows|
    ensures if HasBlock(cells, Wanted(n)) then BaseCells(cells, n) == cells && BaseRows(cells, rows, n) == rows
            else BaseCells(cells, n) == Compacted(cells) && BaseRows(cells, rows, n) == CompactedRows(cells, rows)
    ensures HasBlock(cells, Wanted(n)) ==> Wanted(n) <= EmptyCount(cells)
    ensures HasBlock(Compacted(cells), Wanted(n)) <==> Wanted(n) <= EmptyCount(cells)
  {
    FullOrNot(cells, Wanted(n));
  }

  lemma FirstIsFree(cells: seq<Cell>, k: nat, n: nat)
    requires FirstBlock(cells, k, Wanted(n))
    ensures HasBlock(cells, Wanted(n)) && FreeBlock(cells, k, n)
  {
  }

  /** Whether a batch fits is a matter of counting the free cells. */
  lemma FullOrNot(cells: seq<Cell>, n: nat)
    requires 1 <= n
    ensures HasBlock(cells, n) ==> n <= EmptyCount(cells)
    ensures HasBlock(Compacted(cells), n) <==> n <= EmptyCount(cells)
  {
    if k :| FreeBlock(cells, k, n) {
      FreeBlockCount(cells, k, n);
    }
    CompactedHasBlock(cells, n);
  }

  /** The pending block is the last one, or has length 0 if there is none. */
  ghost predicate IsPending(pending: Block, bs: seq<Block>) {
    if bs == [] then pending.len == 0 else pending == bs[|bs| - 1]
  }

  /** How many blocks have been copied while the last one is pending. */
  ghost function Flushed(bs: seq<Block>): nat {
    if bs == [] then 0 else |bs| - 1
  }

  lemma FlushLast(r0: seq<Row>, bs: seq<Block>)
    requires BlocksOk(bs, |r0|) && bs != []
    ensures var b := bs[|bs| - 1];
      && BlockFits(b, |r0|) && b.dst + b.len <= b.src && b.len > 0
      && CopyBlocks(r0, bs, |bs|) == CopyBlock(CopyBlocks(r0, bs, |bs| - 1), b)
  {
  }

  lemma PendingOk(r0: seq<Row>, bs: seq<Block>, m: Move, pending: Block)
    requires BlocksOk(bs, |r0|) && BlocksOk(AddMove(bs, m), |r0|) && IsPending(pending, bs)
    ensures AllFit(bs, |r0|) && AllFit(AddMove(bs, m), |r0|)
    ensures pending.len > 0 <==> bs != []
    ensures pending.len > 0 ==> BlockFits(pending, |r0|) && pending.dst + pending.len <= pending.src
    ensures CopyBlocks(r0, AddMove(bs, m), Flushed(AddMove(bs, m)))
         == if pending.len > 0 && !Extends(pending, m)
            then CopyBlock(CopyBlocks(r0, bs, Flushed(bs)), pending) else CopyBlocks(r0, bs, Flushed(bs))
  {
    hide CopyBlocks, CopyBlock;
    if bs != [] {
      FlushLast(r0, bs);
    }
    SameCopies(r0, bs, AddMove(bs, m), Flushed(AddMove(bs, m)));
  }

  lemma FlushAll(r0: seq<Row>, bs: seq<Block>, pending: Block)
    requires BlocksOk(bs, |r0|) && IsPending(pending, bs)
    ensures AllFit(bs, |r0|) && Flushed(bs) <= |bs|
    ensures if pending.len > 0
            then BlockFits(pending, |r0|) && pending.dst + pending.len <= pending.src
                 && CopyBlocks(r0, bs, |bs|) == CopyBlock(CopyBlocks(r0, bs, Flushed(bs)), pending)
            else CopyBlocks(r0, bs, |bs|) == CopyBlocks(r0, bs, Flushed(bs))
  {
    if bs != [] {
      FlushLast(r0, bs);
    }
  }

  lemma MoveCellAt(cells: seq<Cell>, m: Move)
    requires m.src < |cells| && m.dst < |cells|
    ensures |MoveCell(cells, m)| == |cells|
    ensures forall i | 0 <= i < |cells| && i != m.src && i != m.dst :: MoveCell(cells, m)[i] == cells[i]
    ensures m.src != m.dst ==> !Occupied(MoveCell(cells, m)[m.src])
  {
  }

  lemma NothingYet(cells: seq<Cell>, s: int)
    ensures ExactTo(cells, s, NEW_RANGE, 0)
  {
  }

  lemma StoredRange(cells: seq<Cell>, ranges: map<int, Range>, k: nat, s: int)
    requires IndexOk(cells, ranges) && k < |cells| <= MAX_INT
    ensures var r := Widen(RangeOf(ranges, s), k);
      && 0 <= r.min <= k <= r.max < |cells|
      && (s in ranges ==> r.min <= ranges[s].min && ranges[s].max <= r.max)
  {
    assert Listed(cells, ranges, s);
  }

  lemma SkipOccupied(cells: seq<Cell>, dst: nat, src: int)
    requires src < |cells| && dst < |cells| && Occupied(cells[dst])
    ensures MoveList(cells, dst + 1, src) == MoveList(cells, dst, src)
  {
  }

  lemma NoMoreMoves(cells: seq<Cell>, dst: nat, src: int)
    requires src < |cells| && dst >= src
    ensures MoveList(cells, dst, src) == []
  {
  }

  lemma {:induction false} SkipHoles(cells: seq<Cell>, dst: nat, src: int, src': int)
    requires dst <= src' <= src < |cells| && !Occupied(cells[dst])
    requires forall i | src' < i <= src :: !Occupied(cells[i])
    ensures MoveList(cells, dst, src) == MoveList(cells, dst, src')
    decreases src
  {
    if src' < src {
      SkipHoles(cells, dst, src - 1, src');
    }
  }

  /** The next move of the list, and what it does to cells and blocks. */
  lemma StepMove(cells: seq<Cell>, ms: seq<Move>, n: nat, dst: nat, src: int)
    requires FillHoles(cells, ms) && n <= |ms|
    requires dst < src < |cells| && !Occupied(cells[dst]) && Occupied(cells[src])
    requires MoveList(cells, dst, src) == ms[n..]
    ensures n < |ms| && ms[n] == Move(src, dst)
    ensures MoveList(cells, dst + 1, src - 1) == ms[n + 1..]
    ensures InBounds(ms, |cells|)
    ensures MoveCells(cells, ms, n + 1) == MoveCell(MoveCells(cells, ms, n), Move(src, dst))
    ensures Blocks(ms, n + 1) == AddMove(Blocks(ms, n), Move(src, dst))
    ensures BlocksOk(Blocks(ms, n + 1), |cells|) && AllFit(Blocks(ms, n + 1), |cells|)
    ensures Flushed(Blocks(ms, n + 1)) <= |Blocks(ms, n + 1)|
  {
    hide FillHoles, BlocksOk, AllFit;
    assert ms[n..] == [Move(src, dst)] + MoveList(cells, dst + 1, src - 1);
    StepBlocks(cells, ms, n);
  }

  lemma StepBlocks(cells: seq<Cell>, ms: seq<Move>, n: nat)
    requires FillHoles(cells, ms) && n < |ms|
    ensures InBounds(ms, |cells|)
    ensures BlocksOk(Blocks(ms, n + 1), |cells|) && AllFit(Blocks(ms, n + 1), |cells|)
    ensures Flushed(Blocks(ms, n + 1)) <= |Blocks(ms, n + 1)|
  {
    hide FillHoles;
    InBoundsOf(cells, ms);
    BlocksAreOk(cells, ms, n + 1);
  }

  lemma InBoundsOf(cells: seq<Cell>, ms: seq<Move>)
    requires FillHoles(cells, ms)
    ensures InBounds(ms, |cells|)
  {
  }

  lemma CompactedStart(cells: seq<Cell>, rows: seq<Row>)
    requires |cells| == |rows|
    ensures var ms := Moves(cells);
      && FillHoles(cells, ms) && InBounds(ms, |cells|) && Blocks(ms, 0) == []
      && BlocksOk([], |rows|) && AllFit([], |rows|) && Flushed([]) == 0 && IsPending(Block(0, 0, 0), [])
      && MoveCells(cells, ms, 0) == cells && CopyBlocks(rows, [], 0) == rows
      && MoveList(cells, 0, |cells| - 1) == ms[0..]
  {
    MoveListFillsHoles(cells, 0, |cells| - 1);
  }

  lemma CompactedEnd(cells: seq<Cell>, rows: seq<Row>)
    requires |cells| == |rows|
    ensures var ms := Moves(cells);
      var bs := Blocks(ms, |ms|);
      && InBounds(ms, |cells|) && AllFit(bs, |cells|)
      && Compacted(cells) == MoveCells(cells, ms, |ms|)
      && CompactedRows(cells, rows) == CopyBlocks(rows, bs, |bs|)
  {
    MoveListFillsHoles(cells, 0, |cells| - 1);
    BlocksAreOk(cells, Moves(cells), |Moves(cells)|);
  }
}
