/** Taking a stored batch back out of a cache: what the unwind of a failed forward
    pass does to the views, and when it restores them. */
module KvUnwind {
  import opened KvCells
  import opened KvOps
  import opened KvCausal

  /** MaxInt32 stands for "to the end", so no token may be stored there. */
  ghost predicate NoSentinel(cells: seq<Cell>) {
    forall i | 0 <= i < |cells| :: cells[i].pos < MAX_INT32
  }

  ghost function Removed(cells: seq<Cell>, s: int, begin: Int32): (r: seq<Cell>)
    ensures |r| == |cells|
  {
    seq(|cells|, i requires 0 <= i < |cells| => RemoveCell(cells[i], s, begin, MAX_INT32))
  }

  /** The cells after the first n tokens of a batch have been removed again, each
      along with whatever follows it in its sequence. */
  ghost function Unwind(cells: seq<Cell>, positions: seq<Int32>, seqs: seq<int>, n: nat): (r: seq<Cell>)
    requires n <= |positions| == |seqs|
    ensures |r| == |cells|
  {
    if n == 0 then cells else Removed(Unwind(cells, positions, seqs, n - 1), seqs[n - 1], positions[n - 1])
  }

  lemma RemovedAt(c: Cell, s: int, begin: Int32)
    requires c.pos < MAX_INT32
    ensures RemoveCell(c, s, begin, MAX_INT32)
         == Cell(c.pos, if s in c.sequences && begin <= c.pos then Drop(c.sequences, s) else c.sequences)
  {
  }

  lemma {:induction false} UnwindKeepsPositions(cells: seq<Cell>, positions: seq<Int32>, seqs: seq<int>, n: nat)
    requires NoSentinel(cells) && n <= |positions| == |seqs|
    ensures forall i | 0 <= i < |cells| :: Unwind(cells, positions, seqs, n)[i].pos == cells[i].pos
    ensures forall i, s | 0 <= i < |cells| && s in Unwind(cells, positions, seqs, n)[i].sequences ::
      s in cells[i].sequences
  {
    if n != 0 {
      UnwindKeepsPositions(cells, positions, seqs, n - 1);
      var before := Unwind(cells, positions, seqs, n - 1);
      forall i | 0 <= i < |cells|
        ensures Unwind(cells, positions, seqs, n)[i].pos == cells[i].pos
        ensures forall s | s in Unwind(cells, positions, seqs, n)[i].sequences :: s in cells[i].sequences
      {
        RemovedAt(before[i], seqs[n - 1], positions[n - 1]);
      }
    }
  }

  /** A location that holds nothing of the batch's sequences from the batch's
      positions on is left alone. */
  lemma {:induction false} UnwindLeaves(cells: seq<Cell>, positions: seq<Int32>, seqs: seq<int>, n: nat, i: nat)
    requires NoSentinel(cells) && n <= |positions| == |seqs| && i < |cells|
    requires forall k | 0 <= k < n && seqs[k] in cells[i].sequences :: cells[i].pos < positions[k]
    ensures Unwind(cells, positions, seqs, n)[i] == cells[i]
  {
    if n != 0 {
      UnwindLeaves(cells, positions, seqs, n - 1, i);
    }
  }

  /** Afterwards nothing of a batch sequence is left from the batch position on. */
  lemma {:induction false} UnwindClears(cells: seq<Cell>, positions: seq<Int32>, seqs: seq<int>, n: nat, k: nat, i: nat)
    requires NoSentinel(cells) && k < n <= |positions| == |seqs| && i < |cells|
    requires positions[k] <= cells[i].pos
    ensures seqs[k] !in Unwind(cells, positions, seqs, n)[i].sequences
  {
    UnwindKeepsPositions(cells, positions, seqs, n - 1);
    var before := Unwind(cells, positions, seqs, n - 1);
    RemovedAt(before[i], seqs[n - 1], positions[n - 1]);
    if k != n - 1 {
      UnwindClears(cells, positions, seqs, n - 1, k, i);
    }
  }

  /** Every batch position lies beyond what its sequence already holds. */
  ghost predicate Beyond(cells: seq<Cell>, positions: seq<Int32>, seqs: seq<int>)
    requires |positions| == |seqs|
  {
    forall k, e | 0 <= k < |positions| && e in Positions(cells, seqs[k]) :: e.pos < positions[k]
  }

  /** The cells after a batch was stored at loc in base and then taken out again. */
  ghost function Undone(base: seq<Cell>, loc: nat, positions: seq<Int32>, seqs: seq<int>): (r: seq<Cell>)
    requires |positions| == |seqs| && loc + |positions| <= |base|
    ensures |r| == |base|
  {
    Unwind(Overlay(base, loc, BatchCells(positions, seqs)), positions, seqs, |positions|)
  }

  ghost predicate SamePositions(cells: seq<Cell>, cells': seq<Cell>) {
    forall s :: Positions(cells', s) == Positions(cells, s)
  }

  /** Every sequence has the same tokens at the same positions. */
  ghost predicate SameTokens(cells: seq<Cell>, rows: seq<Row>, cells': seq<Cell>, rows': seq<Row>)
    requires |cells| == |rows| && |cells'| == |rows'|
  {
    forall s :: Tokens(cells', rows', s) == Tokens(cells, rows, s)
  }

  /** Beyond the batch, and where the batch was, the cells contribute what they did. */
  lemma UndoneWhenBeyond(base: seq<Cell>, rows: seq<Row>, loc: nat, positions: seq<Int32>, seqs: seq<int>, s: int)
    requires |positions| == |seqs| && FreeBlock(base, loc, |positions|) && NoSentinel(base)
    requires forall k | 0 <= k < |positions| :: positions[k] < MAX_INT32
    requires |rows| == |base| && Beyond(base, positions, seqs)
    ensures Tokens(Undone(base, loc, positions, seqs), rows, s) == Tokens(base, rows, s)
  {
    hide Positions, Tokens;
    var stored := Overlay(base, loc, BatchCells(positions, seqs));
    var undone := Undone(base, loc, positions, seqs);
    forall i | 0 <= i < |base|
      ensures Contribution(undone[i], rows[i], s) == Contribution(base[i], rows[i], s)
    {
      if loc <= i < loc + |positions| {
        UnwindClears(stored, positions, seqs, |positions|, i - loc, i);
        UnwindKeepsPositions(stored, positions, seqs, |positions|);
      } else {
        forall k | 0 <= k < |positions| && seqs[k] in stored[i].sequences
          ensures stored[i].pos < positions[k]
        {
          PositionHeld(base, seqs[k], i);
        }
        UnwindLeaves(stored, positions, seqs, |positions|, i);
      }
    }
    TokensAgree(base, rows, undone, rows, s);
  }

  lemma PositionHeld(cells: seq<Cell>, s: int, i: nat)
    requires i < |cells| && s in cells[i].sequences
    ensures Entry(cells[i].pos, 0) in Positions(cells, s)
  {
    TokensWitness(cells, Blank(|cells|), s, Entry(cells[i].pos, 0));
    assert Holds(cells, Blank(|cells|), s, Entry(cells[i].pos, 0), i);
  }

  /** The unwind gives every sequence back its tokens, at their positions, exactly
      when each batch position lies beyond what its sequence already held. */
  lemma UndoneIff(base: seq<Cell>, rows: seq<Row>, loc: nat, positions: seq<Int32>, seqs: seq<int>)
    requires |positions| == |seqs| && FreeBlock(base, loc, |positions|) && NoSentinel(base)
    requires forall k | 0 <= k < |positions| :: positions[k] < MAX_INT32
    requires |rows| == |base|
    ensures SameTokens(base, rows, Undone(base, loc, positions, seqs), rows) <==> Beyond(base, positions, seqs)
  {
    hide Tokens;
    if Beyond(base, positions, seqs) {
      forall s
        ensures Tokens(Undone(base, loc, positions, seqs), rows, s) == Tokens(base, rows, s)
      {
        UndoneWhenBeyond(base, rows, loc, positions, seqs, s);
      }
    } else {
      var k, e :| 0 <= k < |positions| && e in Positions(base, seqs[k]) && positions[k] <= e.pos;
      var e' := EntryLost(base, rows, loc, positions, seqs, k, e);
    }
  }

  /** A token that a sequence of the batch already held from the batch's position
      on does not survive the unwind. */
  lemma EntryLost(base: seq<Cell>, rows: seq<Row>, loc: nat, positions: seq<Int32>, seqs: seq<int>, k: nat, e: Entry)
    returns (lost: Entry)
    requires |positions| == |seqs| && FreeBlock(base, loc, |positions|) && NoSentinel(base)
    requires forall k | 0 <= k < |positions| :: positions[k] < MAX_INT32
    requires k < |positions| && positions[k] <= e.pos && e in Positions(base, seqs[k]) && |rows| == |base|
    ensures lost.pos == e.pos && lost in Tokens(base, rows, seqs[k])
    ensures lost !in Tokens(Undone(base, loc, positions, seqs), rows, seqs[k])
  {
    hide Tokens;
    var stored := Overlay(base, loc, BatchCells(positions, seqs));
    var undone := Undone(base, loc, positions, seqs);
    TokensWitness(base, Blank(|base|), seqs[k], e);
    var at :| 0 <= at < |base| && Holds(base, Blank(|base|), seqs[k], e, at);
    lost := Entry(e.pos, rows[at].token);
    assert Holds(base, rows, seqs[k], lost, at);
    TokensWitness(base, rows, seqs[k], lost);
    UnwindKeepsPositions(stored, positions, seqs, |positions|);
    TokensWitness(undone, rows, seqs[k], lost);
    forall i | 0 <= i < |base|
      ensures !Holds(undone, rows, seqs[k], lost, i)
    {
      if stored[i].pos == e.pos {
        UnwindClears(stored, positions, seqs, |positions|, k, i);
      }
    }
  }

  /** The same, for the cache as it was before room was made for the batch: its
      positions, and its tokens too if making room keeps the rows with their cells. */
  lemma UndoneRestores(cells: seq<Cell>, rows: seq<Row>, loc: nat, positions: seq<Int32>, seqs: seq<int>)
    requires |positions| == |seqs| && NoSentinel(BaseCells(cells, |positions|)) && |rows| == |cells|
    requires FreeBlock(BaseCells(cells, |positions|), loc, |positions|)
    requires forall k | 0 <= k < |positions| :: positions[k] < MAX_INT32
    ensures var undone := Undone(BaseCells(cells, |positions|), loc, positions, seqs);
      && (SamePositions(cells, undone) <==> Beyond(cells, positions, seqs))
      && (KeepsRows(cells, |positions|) ==>
            (SameTokens(cells, rows, undone, BaseRows(cells, rows, |positions|)) <==> Beyond(cells, positions, seqs)))
  {
    hide Tokens, Positions, BaseCells, BaseRows, KeepsRows, FreeBlock, NoSentinel, Beyond, Undone;
    var base := BaseCells(cells, |positions|);
    BaseViews(cells, rows, |positions|);
    BeyondAgrees(cells, base, positions, seqs);
    UndoneIff(base, BaseRows(cells, rows, |positions|), loc, positions, seqs);
    UndonePositions(base, loc, positions, seqs);
  }

  lemma UndonePositions(base: seq<Cell>, loc: nat, positions: seq<Int32>, seqs: seq<int>)
    requires |positions| == |seqs| && FreeBlock(base, loc, |positions|) && NoSentinel(base)
    requires forall k | 0 <= k < |positions| :: positions[k] < MAX_INT32
    ensures SamePositions(base, Undone(base, loc, positions, seqs)) <==> Beyond(base, positions, seqs)
  {
    hide Tokens, Beyond;
    var undone := Undone(base, loc, positions, seqs);
    UndoneIff(base, Blank(|base|), loc, positions, seqs);
    if Beyond(base, positions, seqs) {
      forall s
        ensures Positions(undone, s) == Positions(base, s)
      {
        assert Tokens(undone, Blank(|base|), s) == Tokens(base, Blank(|base|), s);
      }
    } else {
      var s :| Tokens(undone, Blank(|base|), s) != Tokens(base, Blank(|base|), s);
      assert Positions(undone, s) != Positions(base, s);
    }
  }

  lemma BeyondAgrees(cells: seq<Cell>, cells': seq<Cell>, positions: seq<Int32>, seqs: seq<int>)
    requires |positions| == |seqs|
    requires SamePositions(cells, cells')
    ensures Beyond(cells', positions, seqs) <==> Beyond(cells, positions, seqs)
  {
  }
}
