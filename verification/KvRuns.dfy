/** Whole runs of a cache: what the sequences hold is determined by the history of
    calls, and every key is rotated to its position. */
module KvRuns {
  import opened KvCells
  import opened KvDefrag
  import opened KvBlocks
  import opened KvOps
  import opened KvCausal
  import opened KvUnwind

  /** A call of the cache, with its outcome. Abandon is a removal that failed,
      followed by the removal of the whole sequence. */
  datatype Op =
    | Forward(positions: seq<Int32>, seqs: seq<int>, batch: seq<Row>, pass: bool)
    | CopyPrefix(src: int, dst: int, len: Int32)
    | Remove(s: int, begin: Int32, end: Int32)
    | Abandon(s: int, begin: Int32, end: Int32)

  ghost predicate Step(a: State, op: Op, b: State) {
    && |a.cells| == |a.rows| == |b.cells| == |b.rows|
    && match op
      case Forward(positions, seqs, batch, pass) =>
        && pass == (Wanted(|positions|) <= EmptyCount(a.cells))
        && exists loc :: Forwarded(a, positions, seqs, batch, loc, b)
      case CopyPrefix(src, dst, len) =>
        IsCopy(a.cells, b.cells, src, dst, len) && b.rows == a.rows
      case Remove(s, begin, end) =>
        && RemovedTo(a.cells, b.cells, s, begin, end, |a.cells|)
        && if end == MAX_INT32 then b.rows == a.rows
           else ShiftedRows(b.cells, a.rows, b.rows, s, Wrap32(end + Offset(begin, end)), Offset(begin, end))
      case Abandon(s, begin, end) =>
        b.rows == a.rows && exists failed, n ::
          RemovedTo(a.cells, failed, s, begin, end, n) && RemovedTo(failed, b.cells, s, 0, MAX_INT32, |a.cells|)
  }

  /** What a caller can be held to: keys rotated to their positions, positions
      that are neither negative nor MaxInt32, and stretches that are none of them
      inverted. Making room must not merge moves. */
  ghost predicate Proper(a: State, op: Op) {
    match op
    case Forward(positions, _, batch, _) =>
      && |batch| == |positions| && Rotary(batch, positions) && KeepsRows(a.cells, |positions|)
      && forall k | 0 <= k < |positions| :: 0 <= positions[k] < MAX_INT32
    case CopyPrefix(_, _, _) => true
    case Remove(_, begin, end) => 0 <= begin <= end
    case Abandon(_, begin, end) => 0 <= begin <= end
  }

  /** A run from an empty cache; the states are those before, between and after
      the calls. */
  ghost predicate Run(states: seq<State>, ops: seq<Op>) {
    && |states| == |ops| + 1
    && |states[0].cells| == |states[0].rows|
    && (forall i | 0 <= i < |states[0].cells| :: states[0].cells[i] == EMPTY)
    && forall n | 0 <= n < |ops| :: Step(states[n], ops[n], states[n + 1])
  }

  ghost predicate ProperRun(states: seq<State>, ops: seq<Op>) {
    Run(states, ops) && forall n | 0 <= n < |ops| :: Proper(states[n], ops[n])
  }

  // ------------------------------------------------------------- the keys

  /** Every position that is held can be removed again. */
  ghost predicate InRange(cells: seq<Cell>) {
    forall i | 0 <= i < |cells| && Occupied(cells[i]) :: 0 <= cells[i].pos < MAX_INT32
  }

  lemma InRangeIsRecoverable(cells: seq<Cell>, s: int)
    requires InRange(cells)
    ensures Recoverable(cells, s)
  {
  }

  /** Making room moves positions about, but brings in none. */
  lemma BaseInRange(cells: seq<Cell>, n: nat)
    requires InRange(cells)
    ensures InRange(BaseCells(cells, n))
  {
    hide BaseCells, Tokens, Positions;
    BaseViews(cells, Blank(|cells|), n);
    var base := BaseCells(cells, n);
    forall i | 0 <= i < |base| && Occupied(base[i])
      ensures 0 <= base[i].pos < MAX_INT32
    {
      var s := base[i].sequences[0];
      PositionHeld(base, s, i);
      var j := PositionIn(cells, s, Entry(base[i].pos, 0));
    }
  }

  lemma PositionIn(cells: seq<Cell>, s: int, e: Entry) returns (i: nat)
    requires e in Positions(cells, s)
    ensures i < |cells| && s in cells[i].sequences && cells[i].pos == e.pos
  {
    TokensWitness(cells, Blank(|cells|), s, e);
    i :| 0 <= i < |cells| && Holds(cells, Blank(|cells|), s, e, i);
  }

  lemma ForwardKeepsKeys(a: State, positions: seq<Int32>, seqs: seq<int>, batch: seq<Row>, loc: nat, b: State)
    requires Forwarded(a, positions, seqs, batch, loc, b) && Rotary(batch, positions)
    requires KeepsRows(a.cells, |positions|) && InPhase(a.cells, a.rows) && InRange(a.cells)
    requires forall k | 0 <= k < |positions| :: 0 <= positions[k] < MAX_INT32
    ensures |b.cells| == |b.rows| && InPhase(b.cells, b.rows) && InRange(b.cells)
  {
    hide BaseCells, BaseRows, KeepsRows, EmptyCount, FirstBlock;
    BaseViews(a.cells, a.rows, |positions|);
    BaseInRange(a.cells, |positions|);
  }

  lemma RemoveInRange(cells: seq<Cell>, cells': seq<Cell>, s: int, begin: Int32, end: Int32, n: nat)
    requires RemovedTo(cells, cells', s, begin, end, n) && InRange(cells) && 0 <= begin <= end
    ensures InRange(cells')
  {
    RemoveKeepsRecoverable(cells, cells', s, begin, end, n);
    forall i | 0 <= i < |cells| && Occupied(cells'[i])
      ensures 0 <= cells'[i].pos < MAX_INT32
    {
      if s !in cells'[i].sequences {
        assert cells'[i].pos == cells[i].pos && Occupied(cells[i]);
      }
    }
  }

  lemma StepKeepsKeys(a: State, op: Op, b: State)
    requires Step(a, op, b) && Proper(a, op) && InPhase(a.cells, a.rows) && InRange(a.cells)
    ensures InPhase(b.cells, b.rows) && InRange(b.cells)
  {
    hide InPhase, InRange, RemovedTo, ShiftedRows, Forwarded, KeepsRows, EmptyCount;
    match op
    case Forward(positions, seqs, batch, _) =>
      var loc :| Forwarded(a, positions, seqs, batch, loc, b);
      ForwardKeepsKeys(a, positions, seqs, batch, loc, b);
    case CopyPrefix(src, dst, len) =>
      CopyKeepsPhase(a.cells, a.rows, b.cells, src, dst, len);
      CopyInRange(a.cells, b.cells, src, dst, len);
    case Remove(s, begin, end) =>
      RemoveKeepsPhase(a.cells, a.rows, b.cells, b.rows, s, begin, end);
      RemoveInRange(a.cells, b.cells, s, begin, end, |a.cells|);
    case Abandon(s, begin, end) =>
      var failed, n :|
        RemovedTo(a.cells, failed, s, begin, end, n) && RemovedTo(failed, b.cells, s, 0, MAX_INT32, |a.cells|);
      InRangeIsRecoverable(a.cells, s);
      RecoveryRestoresPhase(a.cells, failed, b.cells, a.rows, s, begin, end, n);
      RemoveInRange(a.cells, failed, s, begin, end, n);
      RemoveInRange(failed, b.cells, s, 0, MAX_INT32, |a.cells|);
  }

  lemma CopyInRange(cells: seq<Cell>, cells': seq<Cell>, src: int, dst: int, len: Int32)
    requires IsCopy(cells, cells', src, dst, len) && InRange(cells)
    ensures InRange(cells')
  {
    forall i | 0 <= i < |cells| && Occupied(cells'[i])
      ensures 0 <= cells'[i].pos < MAX_INT32
    {
      assert cells'[i] == CopyCell(cells[i], src, dst, len);
    }
  }

  /** At every point of a proper run each key that is held is rotated to the
      position of its cell. */
  lemma {:induction false} RunKeepsKeys(states: seq<State>, ops: seq<Op>, n: nat)
    requires ProperRun(states, ops) && n <= |ops|
    ensures |states[n].cells| == |states[n].rows|
    ensures InPhase(states[n].cells, states[n].rows) && InRange(states[n].cells)
  {
    if n != 0 {
      RunKeepsKeys(states, ops, n - 1);
      assert Step(states[n - 1], ops[n - 1], states[n]) && Proper(states[n - 1], ops[n - 1]);
      StepKeepsKeys(states[n - 1], ops[n - 1], states[n]);
    }
  }

  // ------------------------------------------------------------ the tokens

  /** How often sequence s should hold the entry e after the first n calls: told
      from the calls alone, without a cache. */
  ghost function Count(ops: seq<Op>, n: nat, s: int, e: Entry): nat
    requires n <= |ops|
  {
    if n == 0 then 0
    else
      var before := Count(ops, n - 1, s, e);
      match ops[n - 1]
      case Forward(positions, seqs, batch, pass) =>
        if pass && |positions| == |seqs| == |batch| then before + Tokens(BatchCells(positions, seqs), batch, s)[e]
        else before
      case CopyPrefix(src, dst, len) =>
        if s != dst then before
        else if src != dst && e.pos < len then Count(ops, n - 1, src, e)
        else 0
      case Remove(r, begin, end) =>
        if s != r then before
        else
          (match CutSource(begin, end, e)
           case Nowhere => 0
           case From(e0) => Count(ops, n - 1, s, e0))
      case Abandon(r, _, _) =>
        if s != r then before else 0
  }

  ghost predicate IsHistory(a: State, ops: seq<Op>, n: nat)
    requires |a.cells| == |a.rows| && n <= |ops|
  {
    forall s, e :: Tokens(a.cells, a.rows, s)[e] == Count(ops, n, s, e)
  }

  lemma ForwardIsHistory(a: State, b: State, ops: seq<Op>, n: nat, loc: nat)
    requires n < |ops| && |a.cells| == |a.rows| == |b.cells| == |b.rows|
    requires IsHistory(a, ops, n) && ops[n].Forward? && Proper(a, ops[n])
    requires ops[n].pass == (Wanted(|ops[n].positions|) <= EmptyCount(a.cells))
    requires Forwarded(a, ops[n].positions, ops[n].seqs, ops[n].batch, loc, b)
    ensures IsHistory(b, ops, n + 1)
  {
    hide Tokens, Positions, BaseCells, BaseRows, KeepsRows, EmptyCount, FirstBlock, FreeBlock, InPhase, Overlay;
    var Forward(positions, seqs, batch, pass) := ops[n];
    if pass {
      FirstIsFree(BaseCells(a.cells, |positions|), loc, |positions|);
      ForwardViews(a.cells, a.rows, positions, seqs, batch, loc);
    } else {
      BaseViews(a.cells, a.rows, |positions|);
    }
  }

  lemma CopyIsHistory(a: State, b: State, ops: seq<Op>, n: nat)
    requires n < |ops| && |a.cells| == |a.rows|
    requires IsHistory(a, ops, n) && ops[n].CopyPrefix? && b.rows == a.rows
    requires IsCopy(a.cells, b.cells, ops[n].src, ops[n].dst, ops[n].len)
    ensures IsHistory(b, ops, n + 1)
  {
    hide Tokens, IsCopy;
    var CopyPrefix(src, dst, len) := ops[n];
    assert |b.cells| == |a.cells| by { CopySize(a.cells, b.cells, src, dst, len); }
    forall s, e
      ensures Tokens(b.cells, b.rows, s)[e] == Count(ops, n + 1, s, e)
    {
      if src != dst {
        CopyPrefixViews(a.cells, a.rows, b.cells, src, dst, len, s);
      } else if s == dst {
        CopyOntoItself(a.cells, a.rows, b.cells, s, len);
      } else {
        SelfCopyKeepsOthers(a.cells, a.rows, b.cells, dst, len, s);
      }
    }
  }

  lemma CopySize(cells: seq<Cell>, cells': seq<Cell>, src: int, dst: int, len: Int32)
    requires IsCopy(cells, cells', src, dst, len)
    ensures |cells'| == |cells|
  {
  }

  lemma SelfCopyKeepsOthers(cells: seq<Cell>, rows: seq<Row>, cells': seq<Cell>, dst: int, len: Int32, s: int)
    requires |cells| == |rows| && IsCopy(cells, cells', dst, dst, len) && s != dst
    ensures Tokens(cells', rows, s) == Tokens(cells, rows, s)
  {
    TokensAgree(cells, rows, cells', rows, s);
  }

  lemma RemoveIsHistory(a: State, b: State, ops: seq<Op>, n: nat)
    requires n < |ops| && |a.cells| == |a.rows| == |b.rows|
    requires IsHistory(a, ops, n) && ops[n].Remove? && Proper(a, ops[n])
    requires RemovedTo(a.cells, b.cells, ops[n].s, ops[n].begin, ops[n].end, |a.cells|)
    requires forall i | 0 <= i < |a.rows| :: b.rows[i].token == a.rows[i].token
    ensures |b.cells| == |b.rows| && IsHistory(b, ops, n + 1)
  {
    hide Tokens;
    var Remove(r, begin, end) := ops[n];
    RemoveHasViews(a.cells, a.rows, b.cells, b.rows, r, begin, end, |a.cells|);
    forall s, e
      ensures Tokens(b.cells, b.rows, s)[e] == Count(ops, n + 1, s, e)
    {
      if s == r {
        assert Tokens(b.cells, b.rows, r)[e] == Pulled(Tokens(a.cells, a.rows, r), Cut(begin, end), e);
      }
    }
  }

  lemma AbandonIsHistory(a: State, b: State, ops: seq<Op>, n: nat, failed: seq<Cell>, m: nat)
    requires n < |ops| && |a.cells| == |a.rows| && b.rows == a.rows
    requires IsHistory(a, ops, n) && ops[n].Abandon? && Proper(a, ops[n]) && InRange(a.cells)
    requires RemovedTo(a.cells, failed, ops[n].s, ops[n].begin, ops[n].end, m)
    requires RemovedTo(failed, b.cells, ops[n].s, 0, MAX_INT32, |a.cells|)
    ensures |b.cells| == |b.rows| && IsHistory(b, ops, n + 1)
  {
    hide Tokens, InRange;
    var Abandon(r, begin, end) := ops[n];
    InRangeIsRecoverable(a.cells, r);
    RemoveKeepsRecoverable(a.cells, failed, r, begin, end, m);
    AllGone(failed, b.cells, b.rows, r, |failed|);
    forall s, e
      ensures Tokens(b.cells, b.rows, s)[e] == Count(ops, n + 1, s, e)
    {
      if s != r {
        RemoveKeepsOthers(a.cells, a.rows, failed, a.rows, r, begin, end, m, s);
        RemoveKeepsOthers(failed, a.rows, b.cells, a.rows, r, 0, MAX_INT32, |failed|, s);
      }
    }
  }

  lemma StepIsHistory(a: State, b: State, ops: seq<Op>, n: nat)
    requires n < |ops| && Step(a, ops[n], b) && Proper(a, ops[n]) && InRange(a.cells)
    requires IsHistory(a, ops, n)
    ensures IsHistory(b, ops, n + 1)
  {
    hide IsHistory, RemovedTo, Forwarded, KeepsRows, EmptyCount, InRange;
    match ops[n]
    case Forward(positions, seqs, batch, _) =>
      var loc :| Forwarded(a, positions, seqs, batch, loc, b);
      ForwardIsHistory(a, b, ops, n, loc);
    case CopyPrefix(_, _, _) =>
      CopyIsHistory(a, b, ops, n);
    case Remove(_, _, _) =>
      RemoveIsHistory(a, b, ops, n);
    case Abandon(s, begin, end) =>
      var failed, m :|
        RemovedTo(a.cells, failed, s, begin, end, m) && RemovedTo(failed, b.cells, s, 0, MAX_INT32, |a.cells|);
      AbandonIsHistory(a, b, ops, n, failed, m);
  }

  /** At every point of a proper run each sequence holds, at each position, just
      the tokens that the calls so far say it should. */
  lemma {:induction false} RunIsHistory(states: seq<State>, ops: seq<Op>, n: nat)
    requires ProperRun(states, ops) && n <= |ops|
    ensures |states[n].cells| == |states[n].rows|
    ensures forall s, e :: Tokens(states[n].cells, states[n].rows, s)[e] == Count(ops, n, s, e)
  {
    hide Tokens;
    if n == 0 {
      forall s, e
        ensures Tokens(states[0].cells, states[0].rows, s)[e] == Count(ops, 0, s, e)
      {
        TokensWitness(states[0].cells, states[0].rows, s, e);
      }
    } else {
      RunIsHistory(states, ops, n - 1);
      RunKeepsKeys(states, ops, n - 1);
      assert Step(states[n - 1], ops[n - 1], states[n]) && Proper(states[n - 1], ops[n - 1]);
      StepIsHistory(states[n - 1], states[n], ops, n - 1);
    }
  }

  // ------------------------------------------------- a run that loses a token

  const HOLED: seq<Cell> := [Cell(0, []), Cell(1, []), Cell(0, [0]), Cell(1, [0]), EMPTY]

  const SWAPPED: seq<Cell> := [Cell(1, [0]), Cell(0, [0]), EMPTY, EMPTY, EMPTY]

  const FOUR_ROWS: seq<Row> := [Row(10, 0), Row(11, 1), Row(20, 0), Row(21, 1), Row(0, 0)]

  /** Two holes below two cells: the two moves are merged. */
  lemma HoledMerges()
    ensures Moves(HOLED) == [Move(3, 0), Move(2, 1)] && Merges(Moves(HOLED), 2)
    ensures !HasBlock(HOLED, 3) && !KeepsRows(HOLED, 3)
  {
    assert MoveList(HOLED, 2, 1) == [];
    assert MoveList(HOLED, 1, 2) == [Move(2, 1)];
    assert MoveList(HOLED, 0, 3) == [Move(3, 0), Move(2, 1)];
    assert MoveList(HOLED, 0, 4) == [Move(3, 0), Move(2, 1)];
    assert Adjacent(Moves(HOLED), 0);
    forall k
      ensures !FreeBlock(HOLED, k, 3)
    {
      assert Occupied(HOLED[2]);
    }
  }

  /** The cells change places, the rows do not. */
  lemma HoledCompacts()
    ensures Compacted(HOLED) == SWAPPED
    ensures CompactedRows(HOLED, FOUR_ROWS) == [Row(20, 0), Row(21, 1), Row(20, 0), Row(21, 1), Row(0, 0)]
  {
    HoledMerges();
    var ms := Moves(HOLED);
    MoveListFillsHoles(HOLED, 0, 4);
    assert MoveCells(HOLED, ms, 0) == HOLED;
    assert MoveCells(HOLED, ms, 1) == [Cell(1, [0]), Cell(1, []), Cell(0, [0]), EMPTY, EMPTY];
    assert MoveCells(HOLED, ms, 2) == SWAPPED;
    BlocksAreOk(HOLED, ms, 2);
    assert Blocks(ms, 0) == [];
    assert Blocks(ms, 1) == [Block(3, 0, 1)];
    assert Blocks(ms, 2) == [Block(2, 0, 2)];
    assert CopyBlocks(FOUR_ROWS, Blocks(ms, 2), 0) == FOUR_ROWS;
  }

  const LOSING: seq<Op> := [
    Forward([0, 1], [1, 1], [Row(10, 0), Row(11, 1)], true),
    Forward([0, 1], [0, 0], [Row(20, 0), Row(21, 1)], true),
    Remove(1, 0, MAX_INT32),
    Forward([2, 3, 4], [0, 0, 0], [Row(22, 2), Row(23, 3), Row(24, 4)], true)]

  const LOSING_STATES: seq<State> := [
    State([EMPTY, EMPTY, EMPTY, EMPTY, EMPTY], [Row(0, 0), Row(0, 0), Row(0, 0), Row(0, 0), Row(0, 0)]),
    State([Cell(0, [1]), Cell(1, [1]), EMPTY, EMPTY, EMPTY], [Row(10, 0), Row(11, 1), Row(0, 0), Row(0, 0), Row(0, 0)]),
    State([Cell(0, [1]), Cell(1, [1]), Cell(0, [0]), Cell(1, [0]), EMPTY], FOUR_ROWS),
    State(HOLED, FOUR_ROWS),
    State([Cell(1, [0]), Cell(0, [0]), Cell(2, [0]), Cell(3, [0]), Cell(4, [0])],
          [Row(20, 0), Row(21, 1), Row(22, 2), Row(23, 3), Row(24, 4)])]


  /** A batch that fits is stored at the first block that is long enough. */
  lemma ForwardStep(a: State, positions: seq<Int32>, seqs: seq<int>, batch: seq<Row>, base: State, loc: nat, b: State)
    requires |a.cells| == |a.rows| && |positions| == |seqs| == |batch|
    requires Wanted(|positions|) <= EmptyCount(a.cells)
    requires base == State(BaseCells(a.cells, |positions|), BaseRows(a.cells, a.rows, |positions|))
    requires FirstBlock(base.cells, loc, Wanted(|positions|)) && loc + |positions| <= |a.cells|
    requires b == State(Overlay(base.cells, loc, BatchCells(positions, seqs)), Overlay(base.rows, loc, batch))
    ensures Step(a, Forward(positions, seqs, batch, true), b)
  {
    assert Forwarded(a, positions, seqs, batch, loc, b);
  }

  lemma LosingStep0()
    ensures Step(LOSING_STATES[0], LOSING[0], LOSING_STATES[1])
  {
    var a, b := LOSING_STATES[0], LOSING_STATES[1];
    assert FreeBlock(a.cells, 0, 2);
    FreeBlockCount(a.cells, 0, 2);
    ForwardStep(a, LOSING[0].positions, LOSING[0].seqs, LOSING[0].batch, a, 0, b);
  }

  lemma LosingStep1()
    ensures Step(LOSING_STATES[1], LOSING[1], LOSING_STATES[2])
  {
    var a, b := LOSING_STATES[1], LOSING_STATES[2];
    assert FreeBlock(a.cells, 2, 2);
    assert Occupied(a.cells[1]) && Occupied(a.cells[0]);
    FreeBlockCount(a.cells, 2, 2);
    ForwardStep(a, LOSING[1].positions, LOSING[1].seqs, LOSING[1].batch, a, 2, b);
  }

  lemma LosingStep2()
    ensures Step(LOSING_STATES[2], LOSING[2], LOSING_STATES[3])
  {
    assert Drop([1], 1) == [];
  }

  lemma LosingStep3()
    ensures Step(LOSING_STATES[3], LOSING[3], LOSING_STATES[4])
  {
    var a, b := LOSING_STATES[3], LOSING_STATES[4];
    HoledMerges();
    HoledCompacts();
    assert FreeBlock(SWAPPED, 2, 3) && Occupied(SWAPPED[1]) && Occupied(SWAPPED[0]);
    FullOrNot(HOLED, 3);
    assert HasBlock(Compacted(HOLED), 3);
    var base := State(SWAPPED, [Row(20, 0), Row(21, 1), Row(20, 0), Row(21, 1), Row(0, 0)]);
    BaseIs(HOLED, FOUR_ROWS, 3);
    ForwardStep(a, LOSING[3].positions, LOSING[3].seqs, LOSING[3].batch, base, 2, b);
  }

  lemma LosingRun()
    ensures Run(LOSING_STATES, LOSING)
    ensures forall n | 0 <= n < 3 :: Proper(LOSING_STATES[n], LOSING[n])
  {
    hide Step;
    LosingStep0();
    LosingStep1();
    LosingStep2();
    LosingStep3();
    assert FreeBlock(LOSING_STATES[0].cells, 0, 2) && FreeBlock(LOSING_STATES[1].cells, 2, 2);
  }

  lemma OneToken(cells: seq<Cell>, rows: seq<Row>, s: int, e: Entry, i: nat)
    requires i < |cells| == |rows| && Holds(cells, rows, s, e, i)
    ensures e in Tokens(cells, rows, s)
  {
    TokensWitness(cells, rows, s, e);
  }

  /** A run of four calls on a cache of five cells, after which sequence 0 no
      longer holds token 20 at position 0: every call is proper but for the last,
      which makes room by merging two moves. */
  lemma TokenLost()
    ensures Run(LOSING_STATES, LOSING)
    ensures forall n | 0 <= n < 3 :: Proper(LOSING_STATES[n], LOSING[n])
    ensures Entry(0, 20) in Tokens(LOSING_STATES[3].cells, LOSING_STATES[3].rows, 0)
    ensures Count(LOSING, 4, 0, Entry(0, 20)) > 0
    ensures Entry(0, 20) !in Tokens(LOSING_STATES[4].cells, LOSING_STATES[4].rows, 0)
    ensures !InPhase(LOSING_STATES[4].cells, LOSING_STATES[4].rows)
  {
    hide Tokens, Run, Proper, Count;
    LosingRun();
    OneToken(LOSING_STATES[3].cells, LOSING_STATES[3].rows, 0, Entry(0, 20), 2);
    TokenCounted();
    TokensWitness(LOSING_STATES[4].cells, LOSING_STATES[4].rows, 0, Entry(0, 20));
    assert Occupied(LOSING_STATES[4].cells[0]);
  }

  lemma TokenCounted()
    ensures Count(LOSING, 4, 0, Entry(0, 20)) > 0
  {
    hide Tokens;
    var cs, batch := BatchCells([0, 1], [0, 0]), [Row(20, 0), Row(21, 1)];
    OneToken(cs, batch, 0, Entry(0, 20), 0);
    assert Count(LOSING, 2, 0, Entry(0, 20)) >= Tokens(cs, batch, 0)[Entry(0, 20)];
    assert Count(LOSING, 3, 0, Entry(0, 20)) == Count(LOSING, 2, 0, Entry(0, 20));
  }
}
