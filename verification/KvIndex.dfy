/** The range index of the cache: how each operation keeps it in agreement with
    a scan of the cells. */
module KvIndex {
  import opened KvCells
  import opened KvDefrag
  import opened KvOps

  function RangeOf(ranges: map<int, Range>, s: int): Range {
    if s in ranges then ranges[s] else NEW_RANGE
  }

  function Widen(r: Range, i: int): Range {
    Range(if i < r.min then i else r.min, if i > r.max then i else r.max)
  }

  /** Storing a cell for s and widening its range keeps the index exact. */
  lemma {:induction false} StoreKeepsIndex(cells: seq<Cell>, ranges: map<int, Range>, i: nat, p: Int32, s: int)
    requires IndexOk(cells, ranges) && i < |cells| <= MAX_INT && !Occupied(cells[i])
    ensures IndexOk(cells[i := Cell(p, [s])], ranges[s := Widen(RangeOf(ranges, s), i)])
  {
    var cells', ranges' := cells[i := Cell(p, [s])], ranges[s := Widen(RangeOf(ranges, s), i)];
    forall t
      ensures Listed(cells', ranges', t)
    {
      assert Listed(cells, ranges, t);
      if t != s {
        assert forall j | 0 <= j < |cells| :: t in cells'[j].sequences <==> t in cells[j].sequences;
      }
    }
  }

  /** Defragmentation brings no sequence into the cache that was not there. */
  lemma CompactedSequences(cells: seq<Cell>, s: int)
    requires forall i | 0 <= i < |cells| :: s !in cells[i].sequences
    ensures forall i | 0 <= i < |cells| :: s !in Compacted(cells)[i].sequences
  {
    var ms := Moves(cells);
    MoveListFillsHoles(cells, 0, |cells| - 1);
    forall i | 0 <= i < |cells|
      ensures s !in Compacted(cells)[i].sequences
    {
      if j :| 0 <= j < |ms| && (ms[j].dst == i || ms[j].src == i) {
        Moved(cells, ms, |ms|, j);
      } else {
        Unmoved(cells, ms, |ms|, i);
      }
    }
  }

  /** Range r is exact as far as location n. */
  ghost predicate ExactTo(cells: seq<Cell>, s: int, r: Range, n: nat)
    requires n <= |cells|
  {
    && (forall i | 0 <= i < n && s in cells[i].sequences :: r.min <= i <= r.max)
    && (r == NEW_RANGE || (0 <= r.min <= r.max < n && s in cells[r.min].sequences && s in cells[r.max].sequences))
  }

  /** Looking at one more location, which may just have been rewritten. */
  lemma ExactMore(cells: seq<Cell>, cells': seq<Cell>, s: int, r: Range, n: nat)
    requires n < |cells| == |cells'| <= MAX_INT
    requires ExactTo(cells, s, r, n) && forall i | 0 <= i < n :: cells'[i] == cells[i]
    ensures ExactTo(cells', s, if s in cells'[n].sequences then Widen(r, n) else r, n + 1)
  {
  }

  lemma CopyKeepsIndex(
      cells: seq<Cell>, cells': seq<Cell>, ranges: map<int, Range>, src: int, dst: int, len: Int32, r: Range)
    requires IndexOk(cells, ranges) && IsCopy(cells, cells', src, dst, len)
    requires ExactTo(cells', dst, r, |cells'|)
    ensures IndexOk(cells', ranges[dst := r])
  {
    var ranges' := ranges[dst := r];
    forall t
      ensures Listed(cells', ranges', t)
    {
      assert Listed(cells, ranges, t);
      if t != dst {
        assert forall j | 0 <= j < |cells| :: t in cells'[j].sequences <==> t in cells[j].sequences;
      }
    }
  }

  /** The index agrees with the cells for every sequence but s. */
  ghost predicate IndexOkExcept(cells: seq<Cell>, ranges: map<int, Range>, s: int) {
    forall t | t != s :: Listed(cells, ranges, t)
  }

  lemma RemoveKeepsIndex(
      cells: seq<Cell>, cells': seq<Cell>, ranges: map<int, Range>, s: int, begin: Int32, end: Int32, n: nat)
    requires IndexOkExcept(cells, ranges, s) && RemovedTo(cells, cells', s, begin, end, n)
    ensures IndexOkExcept(cells', ranges, s)
  {
    forall t | t != s
      ensures Listed(cells', ranges, t)
    {
      assert Listed(cells, ranges, t);
      assert forall j | 0 <= j < |cells| :: t in cells'[j].sequences <==> t in cells[j].sequences;
    }
  }

  lemma RestoreIndex(cells: seq<Cell>, ranges: map<int, Range>, s: int, r: Range)
    requires IndexOkExcept(cells, ranges, s) && ExactTo(cells, s, r, |cells|) && |cells| <= MAX_INT
    ensures IndexOk(cells, if r == NEW_RANGE then ranges - {s} else ranges[s := r])
  {
    var ranges' := if r == NEW_RANGE then ranges - {s} else ranges[s := r];
    forall t
      ensures Listed(cells, ranges', t)
    {
      if t != s {
        assert Listed(cells, ranges, t);
      }
    }
  }
}
