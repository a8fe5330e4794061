/** The rows of the cache under defragmentation. Moves that look contiguous are
    merged into one block copy; a block is copied in ascending order, while its
    cells were assigned in descending order of their sources. */
module KvBlocks {
  import opened KvCells
  import opened KvDefrag

  /** Rows [src, src + len) are copied to [dst, dst + len). */
  datatype Block = Block(src: int, dst: int, len: nat)

  predicate Extends(b: Block, m: Move) {
    m.src == b.src - b.len && m.dst == b.dst + b.len
  }

  function AddMove(bs: seq<Block>, m: Move): (r: seq<Block>)
    ensures r != []
  {
    if bs != [] && Extends(bs[|bs| - 1], m)
    then bs[|bs| - 1 := Block(m.src, bs[|bs| - 1].dst, bs[|bs| - 1].len + 1)]
    else bs + [Block(m.src, m.dst, 1)]
  }

  /** The block copies issued for the first n moves. */
  function Blocks(ms: seq<Move>, n: nat): (bs: seq<Block>)
    requires n <= |ms|
    ensures n != 0 ==> bs != []
  {
    if n == 0 then [] else AddMove(Blocks(ms, n - 1), ms[n - 1])
  }

  ghost predicate BlockFits(b: Block, size: nat) {
    0 <= b.src && b.src + b.len <= size && 0 <= b.dst && b.dst + b.len <= size
  }

  ghost function CopyBlock(rows: seq<Row>, b: Block): (r: seq<Row>)
    requires BlockFits(b, |rows|)
    ensures |r| == |rows|
  {
    seq(|rows|, i requires 0 <= i < |rows| => if b.dst <= i < b.dst + b.len then rows[b.src + (i - b.dst)] else rows[i])
  }

  ghost predicate AllFit(bs: seq<Block>, size: nat) {
    forall k | 0 <= k < |bs| :: BlockFits(bs[k], size)
  }

  /** The rows after the first n block copies. */
  ghost function CopyBlocks(rows: seq<Row>, bs: seq<Block>, n: nat): (r: seq<Row>)
    requires AllFit(bs, |rows|) && n <= |bs|
    ensures |r| == |rows|
  {
    if n == 0 then rows else CopyBlock(CopyBlocks(rows, bs, n - 1), bs[n - 1])
  }

  /** Two neighbouring moves that defragmentation merges. */
  ghost predicate Adjacent(ms: seq<Move>, j: int)
    requires 0 <= j && j + 1 < |ms|
  {
    ms[j + 1].src == ms[j].src - 1 && ms[j + 1].dst == ms[j].dst + 1
  }

  /** Some two of the first n moves are merged. */
  ghost predicate Merges(ms: seq<Move>, n: nat)
    requires n <= |ms|
  {
    exists j :: 0 <= j && j + 1 < n && Adjacent(ms, j)
  }

  // ------------------------------------------------------ shape of the blocks

  ghost predicate BlocksOk(bs: seq<Block>, size: nat) {
    && AllFit(bs, size)
    && (forall k | 0 <= k < |bs| :: 1 <= bs[k].len)
    && (forall j, k | 0 <= j < k < |bs| :: bs[j].dst + bs[j].len <= bs[k].dst)
    && (forall j, k | 0 <= j < |bs| && 0 <= k < |bs| :: bs[j].dst + bs[j].len <= bs[k].src)
  }

  ghost predicate LastBlockEnds(bs: seq<Block>, m: Move) {
    && bs != []
    && bs[|bs| - 1].dst + bs[|bs| - 1].len - 1 == m.dst
    && bs[|bs| - 1].src == m.src
    && forall k | 0 <= k < |bs| :: m.src <= bs[k].src && bs[k].dst <= m.dst
  }

  lemma MergedOk(bs: seq<Block>, prev: Move, m: Move, size: nat)
    requires BlocksOk(bs, size) && LastBlockEnds(bs, prev)
    requires prev.dst < m.dst < m.src < prev.src < size
    requires Extends(bs[|bs| - 1], m)
    ensures BlocksOk(AddMove(bs, m), size) && LastBlockEnds(AddMove(bs, m), m)
  {
    var last := |bs| - 1;
    var b := Block(m.src, bs[last].dst, bs[last].len + 1);
    var r := AddMove(bs, m);
    assert r == bs[last := b];
    assert b.dst + b.len == m.dst + 1 <= m.src;
    forall j, k | 0 <= j < |r| && 0 <= k < |r|
      ensures r[j].dst + r[j].len <= r[k].src
    {
      assert j < last ==> bs[j].dst + bs[j].len <= bs[last].dst;
    }
  }

  lemma AppendedOk(bs: seq<Block>, prev: Move, m: Move, size: nat)
    requires BlocksOk(bs, size) && LastBlockEnds(bs, prev)
    requires prev.dst < m.dst < m.src < prev.src < size
    requires !Extends(bs[|bs| - 1], m)
    ensures BlocksOk(AddMove(bs, m), size) && LastBlockEnds(AddMove(bs, m), m)
  {
    var last := |bs| - 1;
    var r := AddMove(bs, m);
    assert r == bs + [Block(m.src, m.dst, 1)];
    forall j | 0 <= j < |bs|
      ensures bs[j].dst + bs[j].len <= m.dst
    {
      assert j < last ==> bs[j].dst + bs[j].len <= bs[last].dst;
    }
  }

  /** The blocks for a list of moves lie within the cache, write to disjoint
      rows, and never write to a row that is read. */
  lemma {:induction false} BlocksAreOk(cells: seq<Cell>, ms: seq<Move>, n: nat)
    requires FillHoles(cells, ms) && n <= |ms|
    ensures BlocksOk(Blocks(ms, n), |cells|)
    ensures n != 0 ==> LastBlockEnds(Blocks(ms, n), ms[n - 1])
  {
    if n == 1 {
      assert Blocks(ms, 0) == [];
    } else if n > 1 {
      BlocksAreOk(cells, ms, n - 1);
      var bs := Blocks(ms, n - 1);
      if Extends(bs[|bs| - 1], ms[n - 1]) {
        MergedOk(bs, ms[n - 2], ms[n - 1], |cells|);
      } else {
        AppendedOk(bs, ms[n - 2], ms[n - 1], |cells|);
      }
    }
  }

  /** Row t of block k ends up with the row it was to be copied from. */
  lemma {:induction false} CopiedAt(rows: seq<Row>, bs: seq<Block>, n: nat, k: nat, t: nat)
    requires BlocksOk(bs, |rows|) && k < n <= |bs| && t < bs[k].len
    ensures CopyBlocks(rows, bs, n)[bs[k].dst + t] == rows[bs[k].src + t]
  {
    if k == n - 1 {
      NotCopied(rows, bs, n - 1, bs[k].src + t);
    } else {
      CopiedAt(rows, bs, n - 1, k, t);
    }
  }

  lemma {:induction false} NotCopied(rows: seq<Row>, bs: seq<Block>, n: nat, i: nat)
    requires AllFit(bs, |rows|) && n <= |bs| && i < |rows|
    requires forall k | 0 <= k < n :: i < bs[k].dst || bs[k].dst + bs[k].len <= i
    ensures CopyBlocks(rows, bs, n)[i] == rows[i]
  {
    if n != 0 {
      NotCopied(rows, bs, n - 1, i);
    }
  }

  lemma {:induction false} SameCopies(rows: seq<Row>, bs: seq<Block>, bs': seq<Block>, n: nat)
    requires AllFit(bs, |rows|) && AllFit(bs', |rows|) && n <= |bs| && n <= |bs'|
    requires forall k | 0 <= k < n :: bs[k] == bs'[k]
    ensures CopyBlocks(rows, bs, n) == CopyBlocks(rows, bs', n)
  {
    if n != 0 {
      SameCopies(rows, bs, bs', n - 1);
    }
  }

  ghost function CompactedRows(cells: seq<Cell>, rows: seq<Row>): (r: seq<Row>)
    requires |cells| == |rows|
    ensures |r| == |rows|
  {
    var ms := Moves(cells);
    MoveListFillsHoles(cells, 0, |cells| - 1);
    BlocksAreOk(cells, ms, |ms|);
    CopyBlocks(rows, Blocks(ms, |ms|), |Blocks(ms, |ms|)|)
  }

  // --------------------------------------------- when the rows follow the cells

  /** Without a merge every block is one row, copied along with its cell. */
  lemma {:induction false} UnmergedBlocks(cells: seq<Cell>, ms: seq<Move>, n: nat)
    requires FillHoles(cells, ms) && n <= |ms| && !Merges(ms, n)
    ensures |Blocks(ms, n)| == n
    ensures forall k | 0 <= k < n :: Blocks(ms, n)[k] == Block(ms[k].src, ms[k].dst, 1)
  {
    if n != 0 {
      assert !Merges(ms, n - 1);
      UnmergedBlocks(cells, ms, n - 1);
      assert n > 1 ==> !Adjacent(ms, n - 2);
    }
  }

  lemma {:induction false} UnmergedRows(rows: seq<Row>, ms: seq<Move>, bs: seq<Block>, n: nat)
    requires InBounds(ms, |rows|) && n <= |ms| == |bs| && AllFit(bs, |rows|)
    requires forall k | 0 <= k < |ms| :: bs[k] == Block(ms[k].src, ms[k].dst, 1)
    ensures CopyBlocks(rows, bs, n) == MoveRows(rows, ms, n)
  {
    if n != 0 {
      UnmergedRows(rows, ms, bs, n - 1);
    }
  }

  lemma UnmergedKeepsTokens(cells: seq<Cell>, rows: seq<Row>, s: int)
    requires |cells| == |rows| && !Merges(Moves(cells), |Moves(cells)|)
    ensures Tokens(Compacted(cells), CompactedRows(cells, rows), s) == Tokens(cells, rows, s)
  {
    var ms := Moves(cells);
    MoveListFillsHoles(cells, 0, |cells| - 1);
    BlocksAreOk(cells, ms, |ms|);
    UnmergedBlocks(cells, ms, |ms|);
    UnmergedRows(rows, ms, Blocks(ms, |ms|), |ms|);
    TokensMoved(cells, rows, ms, |ms|, s);
  }

  lemma {:induction false} MovesKeepPhase(cells: seq<Cell>, rows: seq<Row>, ms: seq<Move>, n: nat)
    requires |cells| == |rows| && FillHoles(cells, ms) && n <= |ms| && InPhase(cells, rows)
    ensures InPhase(MoveCells(cells, ms, n), MoveRows(rows, ms, n))
  {
    if n != 0 {
      MovesKeepPhase(cells, rows, ms, n - 1);
    }
  }

  lemma UnmergedKeepsPhase(cells: seq<Cell>, rows: seq<Row>)
    requires |cells| == |rows| && !Merges(Moves(cells), |Moves(cells)|) && InPhase(cells, rows)
    ensures InPhase(Compacted(cells), CompactedRows(cells, rows))
  {
    var ms := Moves(cells);
    MoveListFillsHoles(cells, 0, |cells| - 1);
    BlocksAreOk(cells, ms, |ms|);
    UnmergedBlocks(cells, ms, |ms|);
    UnmergedRows(rows, ms, Blocks(ms, |ms|), |ms|);
    MovesKeepPhase(cells, rows, ms, |ms|);
  }

  lemma LaterMoves(cells: seq<Cell>, ms: seq<Move>, j: nat, k: nat)
    requires FillHoles(cells, ms) && j < k < |ms|
    ensures ms[k].src < ms[j].src
  {
  }

  /** From the first merge on, one block covers the hole of the first merged move
      but starts below its source. */
  lemma {:induction false} MergedBlock(cells: seq<Cell>, ms: seq<Move>, n: nat, j: nat)
    requires FillHoles(cells, ms) && n <= |ms|
    requires j + 1 < n && Adjacent(ms, j) && !Merges(ms, j + 1)
    ensures j < |Blocks(ms, n)|
    ensures var b := Blocks(ms, n)[j];
      b.dst == ms[j].dst && b.len >= 2 && b.src < ms[j].src
  {
    hide Ordered, InBounds;
    if n == j + 2 {
      UnmergedBlocks(cells, ms, n - 1);
    } else {
      MergedBlock(cells, ms, n - 1, j);
      LaterMoves(cells, ms, j, n - 1);
    }
  }

  lemma {:induction false} FirstMerge(ms: seq<Move>, n: nat) returns (j: nat)
    requires n <= |ms| && Merges(ms, n)
    ensures j + 1 < n && Adjacent(ms, j) && !Merges(ms, j + 1)
  {
    if Merges(ms, n - 1) {
      j := FirstMerge(ms, n - 1);
    } else {
      var i :| 0 <= i && i + 1 < n && Adjacent(ms, i);
      j := i;
    }
  }

  /** No sequence holds the same position twice. */
  ghost predicate DistinctPositions(cells: seq<Cell>) {
    forall i, j, s | 0 <= i < j < |cells| && s in cells[i].sequences && s in cells[j].sequences ::
      cells[i].pos != cells[j].pos
  }

  ghost function Numbered(size: nat): (rows: seq<Row>)
    ensures |rows| == size && forall i | 0 <= i < size :: rows[i].token == i
  {
    seq(size, i => Row(i, 0))
  }

  /** A location other than d, to which src was moved, does not hold the cell of src. */
  lemma MovedOnce(cells: seq<Cell>, ms: seq<Move>, j: nat, i: nat, s: int)
    requires FillHoles(cells, ms) && j < |ms| && i < |cells| && i != ms[j].dst
    requires DistinctPositions(cells) && s in cells[ms[j].src].sequences
    ensures var c := MoveCells(cells, ms, |ms|)[i];
      !(s in c.sequences && c.pos == cells[ms[j].src].pos)
  {
    if k :| 0 <= k < |ms| && (ms[k].dst == i || ms[k].src == i) {
      Moved(cells, ms, |ms|, k);
      assert k != j ==> ms[k].src != ms[j].src;
    } else {
      Unmoved(cells, ms, |ms|, i);
      assert i != ms[j].src;
    }
  }

  /** One merge is enough to give some position of some sequence another token. */
  lemma MergeBreaksTokens(cells: seq<Cell>) returns (s: int)
    requires DistinctPositions(cells) && Merges(Moves(cells), |Moves(cells)|)
    ensures var rows := Numbered(|cells|);
      Tokens(Compacted(cells), CompactedRows(cells, rows), s) != Tokens(cells, rows, s)
  {
    hide Tokens, Ordered, BlocksOk, DistinctPositions;
    var ms, rows := Moves(cells), Numbered(|cells|);
    MoveListFillsHoles(cells, 0, |cells| - 1);
    var j := FirstMerge(ms, |ms|);
    var bs := Blocks(ms, |ms|);
    BlocksAreOk(cells, ms, |ms|);
    MergedBlock(cells, ms, |ms|, j);
    CopiedAt(rows, bs, |bs|, j, 0);
    s := cells[ms[j].src].sequences[0];
    var e := Entry(cells[ms[j].src].pos, ms[j].src);
    assert Holds(cells, rows, s, e, ms[j].src);
    TokensWitness(cells, rows, s, e);
    NotHeld(cells, CompactedRows(cells, rows), ms, j, s);
    TokensWitness(Compacted(cells), CompactedRows(cells, rows), s, e);
  }

  lemma NotHeld(cells: seq<Cell>, rows: seq<Row>, ms: seq<Move>, j: nat, s: int)
    requires FillHoles(cells, ms) && j < |ms| && |rows| == |cells|
    requires DistinctPositions(cells) && s in cells[ms[j].src].sequences
    requires rows[ms[j].dst].token != ms[j].src
    ensures forall i | 0 <= i < |cells| ::
      !Holds(MoveCells(cells, ms, |ms|), rows, s, Entry(cells[ms[j].src].pos, ms[j].src), i)
  {
    forall i | 0 <= i < |cells|
      ensures !Holds(MoveCells(cells, ms, |ms|), rows, s, Entry(cells[ms[j].src].pos, ms[j].src), i)
    {
      if i != ms[j].dst {
        MovedOnce(cells, ms, j, i, s);
      }
    }
  }

  /** Defragmentation keeps every token at its position, whatever the rows hold,
      exactly when it merges no two moves. */
  lemma DefragKeepsTokensIff(cells: seq<Cell>)
    requires DistinctPositions(cells)
    ensures (forall rows, s | |rows| == |cells| ::
               Tokens(Compacted(cells), CompactedRows(cells, rows), s) == Tokens(cells, rows, s))
       <==> !Merges(Moves(cells), |Moves(cells)|)
  {
    if Merges(Moves(cells), |Moves(cells)|) {
      var s := MergeBreaksTokens(cells);
    } else {
      forall rows, s | |rows| == |cells|
        ensures Tokens(Compacted(cells), CompactedRows(cells, rows), s) == Tokens(cells, rows, s)
      {
        UnmergedKeepsTokens(cells, rows, s);
      }
    }
  }
}
