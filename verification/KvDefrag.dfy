/** Defragmentation of the cache metadata: which cells move where, and that the
    moves leave every sequence's view as it was. */
module KvDefrag {
  import opened KvCells

  datatype Move = Move(src: nat, dst: nat)

  /** Holes are filled from the front, with occupied cells taken from the back. */
  function MoveList(cells: seq<Cell>, dst: nat, src: int): seq<Move>
    requires src < |cells|
    decreases if dst >= src then 0 else src - dst
  {
    if dst >= src then []
    else if Occupied(cells[dst]) then MoveList(cells, dst + 1, src)
    else if !Occupied(cells[src]) then MoveList(cells, dst, src - 1)
    else [Move(src, dst)] + MoveList(cells, dst + 1, src - 1)
  }

  function Moves(cells: seq<Cell>): seq<Move> {
    MoveList(cells, 0, |cells| - 1)
  }

  ghost predicate InBounds(ms: seq<Move>, size: nat) {
    forall j | 0 <= j < |ms| :: ms[j].src < size && ms[j].dst < size
  }

  ghost function MoveCell(cells: seq<Cell>, m: Move): (r: seq<Cell>)
    requires m.src < |cells| && m.dst < |cells|
  {
    cells[m.dst := cells[m.src]][m.src := EMPTY]
  }

  /** The cells after the first n moves. */
  ghost function MoveCells(cells: seq<Cell>, ms: seq<Move>, n: nat): (r: seq<Cell>)
    requires InBounds(ms, |cells|) && n <= |ms|
    ensures |r| == |cells|
  {
    if n == 0 then cells else MoveCell(MoveCells(cells, ms, n - 1), ms[n - 1])
  }

  /** Rows copied one by one, each along with its cell. */
  ghost function MoveRows(rows: seq<Row>, ms: seq<Move>, n: nat): (r: seq<Row>)
    requires InBounds(ms, |rows|) && n <= |ms|
    ensures |r| == |rows|
  {
    if n == 0 then rows
    else
      var r := MoveRows(rows, ms, n - 1);
      r[ms[n - 1].dst := r[ms[n - 1].src]]
  }

  // ------------------------------------------------------ shape of the moves

  ghost predicate Ordered(ms: seq<Move>) {
    && (forall j, k | 0 <= j < k < |ms| :: ms[j].dst < ms[k].dst && ms[k].src < ms[j].src)
    && (forall j, k | 0 <= j < |ms| && 0 <= k < |ms| :: ms[j].dst < ms[k].src)
  }

  ghost predicate FillHoles(cells: seq<Cell>, ms: seq<Move>) {
    && InBounds(ms, |cells|)
    && Ordered(ms)
    && forall j | 0 <= j < |ms| :: Occupied(cells[ms[j].src]) && !Occupied(cells[ms[j].dst])
  }

  ghost predicate Within(ms: seq<Move>, dst: int, src: int) {
    forall j | 0 <= j < |ms| :: dst <= ms[j].dst < ms[j].src <= src
  }

  lemma FillHolesCons(cells: seq<Cell>, m: Move, ms: seq<Move>)
    requires m.dst < m.src < |cells| && Occupied(cells[m.src]) && !Occupied(cells[m.dst])
    requires FillHoles(cells, ms) && Within(ms, m.dst + 1, m.src - 1)
    ensures FillHoles(cells, [m] + ms) && Within([m] + ms, m.dst, m.src)
  {
    var all := [m] + ms;
    assert forall j | 1 <= j < |all| :: all[j] == ms[j - 1];
  }

  lemma {:induction false} MoveListFillsHoles(cells: seq<Cell>, dst: nat, src: int)
    requires src < |cells|
    ensures FillHoles(cells, MoveList(cells, dst, src)) && Within(MoveList(cells, dst, src), dst, src)
    decreases if dst >= src then 0 else src - dst
  {
    hide FillHoles, Within;
    var ms := MoveList(cells, dst, src);
    if dst >= src {
      NoMoves(cells, dst, src);
    } else if Occupied(cells[dst]) {
      MoveListFillsHoles(cells, dst + 1, src);
      WithinWider(ms, dst + 1, src, dst, src);
    } else if !Occupied(cells[src]) {
      MoveListFillsHoles(cells, dst, src - 1);
      WithinWider(ms, dst, src - 1, dst, src);
    } else {
      MoveListFillsHoles(cells, dst + 1, src - 1);
      FillHolesCons(cells, Move(src, dst), MoveList(cells, dst + 1, src - 1));
    }
  }

  lemma NoMoves(cells: seq<Cell>, dst: int, src: int)
    ensures FillHoles(cells, []) && Within([], dst, src)
  {
  }

  lemma WithinWider(ms: seq<Move>, dst: int, src: int, dst': int, src': int)
    requires Within(ms, dst, src) && dst' <= dst && src <= src'
    ensures Within(ms, dst', src')
  {
  }

  /** A location that none of the moves names keeps its cell. */
  lemma {:induction false} Unmoved(cells: seq<Cell>, ms: seq<Move>, n: nat, i: nat)
    requires InBounds(ms, |cells|) && n <= |ms| && i < |cells|
    requires forall j | 0 <= j < n :: ms[j].src != i && ms[j].dst != i
    ensures MoveCells(cells, ms, n)[i] == cells[i]
  {
    if n != 0 {
      Unmoved(cells, ms, n - 1, i);
    }
  }

  /** Each hole receives the cell it was paired with, which leaves a hole behind. */
  lemma {:induction false} Moved(cells: seq<Cell>, ms: seq<Move>, n: nat, j: nat)
    requires FillHoles(cells, ms) && j < n <= |ms|
    ensures MoveCells(cells, ms, n)[ms[j].dst] == cells[ms[j].src]
    ensures MoveCells(cells, ms, n)[ms[j].src] == EMPTY
  {
    if j == n - 1 {
      Unmoved(cells, ms, n - 1, ms[j].src);
    } else {
      Moved(cells, ms, n - 1, j);
    }
  }

  // ------------------------------------------------- the occupied cells come first

  ghost predicate Filled(ms: seq<Move>, i: int) {
    exists j :: 0 <= j < |ms| && ms[j].dst == i
  }

  ghost predicate Vacated(ms: seq<Move>, i: int) {
    exists j :: 0 <= j < |ms| && ms[j].src == i
  }

  /** Whether location i is occupied once the moves are done. */
  ghost predicate OccupiedAfter(cells: seq<Cell>, ms: seq<Move>, i: nat)
    requires i < |cells|
  {
    Filled(ms, i) || (Occupied(cells[i]) && !Vacated(ms, i))
  }

  lemma {:induction false} PrefixEnd(cells: seq<Cell>, dst: nat, src: int) returns (k: nat)
    requires src < |cells| && dst <= src + 1
    ensures dst <= k <= src + 1
    ensures forall i | dst <= i <= src :: OccupiedAfter(cells, MoveList(cells, dst, src), i) <==> i < k
    decreases if dst >= src then 0 else src - dst
  {
    var ms := MoveList(cells, dst, src);
    if dst >= src {
      k := if dst == src && Occupied(cells[src]) then dst + 1 else dst;
    } else if Occupied(cells[dst]) {
      MoveListFillsHoles(cells, dst + 1, src);
      k := PrefixEnd(cells, dst + 1, src);
      assert ms == MoveList(cells, dst + 1, src);
      assert !Vacated(ms, dst) && OccupiedAfter(cells, ms, dst);
    } else if !Occupied(cells[src]) {
      MoveListFillsHoles(cells, dst, src - 1);
      k := PrefixEnd(cells, dst, src - 1);
      assert ms == MoveList(cells, dst, src - 1);
      assert !Filled(ms, src) && !OccupiedAfter(cells, ms, src);
    } else {
      var rest := MoveList(cells, dst + 1, src - 1);
      MoveListFillsHoles(cells, dst + 1, src - 1);
      k := PrefixEnd(cells, dst + 1, src - 1);
      MoreMoves(Move(src, dst), rest);
      assert ms == [Move(src, dst)] + rest;
      assert !Filled(rest, src);
      forall i | dst <= i <= src
        ensures OccupiedAfter(cells, ms, i) <==> i < k
      {
        if dst < i < src {
          assert OccupiedAfter(cells, rest, i) <==> i < k;
        }
      }
    }
  }

  lemma MoreMoves(m: Move, ms: seq<Move>)
    ensures forall i :: Filled([m] + ms, i) <==> i == m.dst || Filled(ms, i)
    ensures forall i :: Vacated([m] + ms, i) <==> i == m.src || Vacated(ms, i)
  {
    var all := [m] + ms;
    assert all[0] == m && forall j | 0 <= j < |ms| :: all[j + 1] == ms[j];
  }

  ghost function Compacted(cells: seq<Cell>): (r: seq<Cell>)
    ensures |r| == |cells|
  {
    MoveListFillsHoles(cells, 0, |cells| - 1);
    MoveCells(cells, Moves(cells), |Moves(cells)|)
  }

  /** After defragmentation the occupied cells form a prefix of the cache. */
  lemma CompactedIsPrefix(cells: seq<Cell>) returns (k: nat)
    ensures k <= |cells|
    ensures forall i | 0 <= i < |cells| :: Occupied(Compacted(cells)[i]) <==> i < k
  {
    var ms := Moves(cells);
    MoveListFillsHoles(cells, 0, |cells| - 1);
    k := PrefixEnd(cells, 0, |cells| - 1);
    forall i | 0 <= i < |cells|
      ensures Occupied(Compacted(cells)[i]) <==> i < k
    {
      assert OccupiedAfter(cells, ms, i) <==> i < k;
      if j :| 0 <= j < |ms| && (ms[j].dst == i || ms[j].src == i) {
        Moved(cells, ms, |ms|, j);
      } else {
        Unmoved(cells, ms, |ms|, i);
      }
    }
  }

  // ------------------------------------------------------------ what is kept

  /** One move of a cell together with its row changes no view. */
  lemma TokensMove(cells: seq<Cell>, rows: seq<Row>, m: Move, s: int)
    requires |cells| == |rows| && m.src < |cells| && m.dst < |cells| && m.src != m.dst
    requires !Occupied(cells[m.dst])
    ensures Tokens(MoveCell(cells, m), rows[m.dst := rows[m.src]], s) == Tokens(cells, rows, s)
  {
    var c1, r1 := cells[m.dst := cells[m.src]], rows[m.dst := rows[m.src]];
    TokensUpdate(cells, rows, s, m.dst, cells[m.src], rows[m.src]);
    TokensUpdate(c1, r1, s, m.src, EMPTY, r1[m.src]);
    assert r1[m.src := r1[m.src]] == r1;
    var moved := Contribution(cells[m.src], rows[m.src], s);
    assert Tokens(c1, r1, s) == Tokens(cells, rows, s) + moved;
    assert Tokens(c1[m.src := EMPTY], r1, s) + moved == Tokens(c1, r1, s);
    Cancel(Tokens(c1[m.src := EMPTY], r1, s), Tokens(cells, rows, s), moved);
  }

  lemma Cancel<T>(a: multiset<T>, b: multiset<T>, c: multiset<T>)
    requires a + c == b + c
    ensures a == b
  {
    assert a + c - c == a && b + c - c == b;
  }

  /** When its turn comes, a move finds its source and its hole as they were. */
  lemma NextMove(cells: seq<Cell>, ms: seq<Move>, n: nat)
    requires FillHoles(cells, ms) && n < |ms|
    ensures MoveCells(cells, ms, n)[ms[n].dst] == cells[ms[n].dst]
    ensures MoveCells(cells, ms, n)[ms[n].src] == cells[ms[n].src]
  {
    Unmoved(cells, ms, n, ms[n].dst);
    Unmoved(cells, ms, n, ms[n].src);
  }

  lemma MoveTokens(cells: seq<Cell>, rows: seq<Row>, ms: seq<Move>, n: nat, s: int)
    requires |cells| == |rows| && FillHoles(cells, ms) && n < |ms|
    ensures Tokens(MoveCells(cells, ms, n + 1), MoveRows(rows, ms, n + 1), s)
         == Tokens(MoveCells(cells, ms, n), MoveRows(rows, ms, n), s)
  {
    NextMove(cells, ms, n);
    TokensMove(MoveCells(cells, ms, n), MoveRows(rows, ms, n), ms[n], s);
  }

  lemma {:induction false} TokensMoved(cells: seq<Cell>, rows: seq<Row>, ms: seq<Move>, n: nat, s: int)
    requires |cells| == |rows| && FillHoles(cells, ms) && n <= |ms|
    ensures Tokens(MoveCells(cells, ms, n), MoveRows(rows, ms, n), s) == Tokens(cells, rows, s)
  {
    if n != 0 {
      TokensMoved(cells, rows, ms, n - 1, s);
      MoveTokens(cells, rows, ms, n - 1, s);
    }
  }

  lemma {:induction false} BlankRowsMoved(size: nat, ms: seq<Move>, n: nat)
    requires InBounds(ms, size) && n <= |ms|
    ensures MoveRows(Blank(size), ms, n) == Blank(size)
  {
    if n != 0 {
      BlankRowsMoved(size, ms, n - 1);
    }
  }

  /** Defragmentation changes the positions of no sequence. */
  lemma CompactedKeepsPositions(cells: seq<Cell>, s: int)
    ensures Positions(Compacted(cells), s) == Positions(cells, s)
  {
    var ms := Moves(cells);
    MoveListFillsHoles(cells, 0, |cells| - 1);
    TokensMoved(cells, Blank(|cells|), ms, |ms|, s);
    BlankRowsMoved(|cells|, ms, |ms|);
  }

  ghost function Kept(c: Cell): multiset<Cell> {
    if Occupied(c) then multiset{c} else multiset{}
  }

  /** The occupied cells, wherever they lie. */
  ghost function Stored(cells: seq<Cell>): multiset<Cell> {
    if cells == [] then multiset{}
    else Stored(cells[..|cells| - 1]) + Kept(cells[|cells| - 1])
  }

  lemma StoredSplit(cells: seq<Cell>, n: nat)
    requires |cells| == n + 1
    ensures Stored(cells) == Stored(cells[..n]) + Kept(cells[n])
  {
  }

  lemma {:induction false} StoredUpdate(cells: seq<Cell>, i: nat, c: Cell)
    requires i < |cells|
    ensures Stored(cells[i := c]) + Kept(cells[i]) == Stored(cells) + Kept(c)
  {
    var n := |cells| - 1;
    StoredSplit(cells, n);
    StoredSplit(cells[i := c], n);
    if i == n {
      assert cells[i := c][..n] == cells[..n];
    } else {
      StoredUpdate(cells[..n], i, c);
      assert cells[i := c][..n] == cells[..n][i := c];
      AddBoth(Stored(cells[..n][i := c]), Kept(cells[i]), Stored(cells[..n]), Kept(c), Kept(cells[n]));
    }
  }

  lemma AddBoth<T>(a: multiset<T>, b: multiset<T>, c: multiset<T>, d: multiset<T>, e: multiset<T>)
    requires a + b == c + d
    ensures (a + e) + b == (c + e) + d
  {
    assert (a + e) + b == (a + b) + e && (c + e) + d == (c + d) + e;
  }

  lemma StoredMove(cells: seq<Cell>, m: Move)
    requires m.src < |cells| && m.dst < |cells| && m.src != m.dst
    requires !Occupied(cells[m.dst]) && Occupied(cells[m.src])
    ensures Stored(MoveCell(cells, m)) == Stored(cells)
    ensures EmptyCount(MoveCell(cells, m)) == EmptyCount(cells)
  {
    var c1 := cells[m.dst := cells[m.src]];
    StoredUpdate(cells, m.dst, cells[m.src]);
    StoredUpdate(c1, m.src, EMPTY);
    Cancel(Stored(c1[m.src := EMPTY]), Stored(cells), multiset{cells[m.src]});
    EmptyCountUpdate(cells, m.dst, cells[m.src]);
    EmptyCountUpdate(c1, m.src, EMPTY);
  }

  lemma MoveStored(cells: seq<Cell>, ms: seq<Move>, n: nat)
    requires FillHoles(cells, ms) && n < |ms|
    ensures Stored(MoveCells(cells, ms, n + 1)) == Stored(MoveCells(cells, ms, n))
    ensures EmptyCount(MoveCells(cells, ms, n + 1)) == EmptyCount(MoveCells(cells, ms, n))
  {
    NextMove(cells, ms, n);
    StoredMove(MoveCells(cells, ms, n), ms[n]);
  }

  lemma {:induction false} StoredMoved(cells: seq<Cell>, ms: seq<Move>, n: nat)
    requires FillHoles(cells, ms) && n <= |ms|
    ensures Stored(MoveCells(cells, ms, n)) == Stored(cells)
    ensures EmptyCount(MoveCells(cells, ms, n)) == EmptyCount(cells)
  {
    if n != 0 {
      StoredMoved(cells, ms, n - 1);
      MoveStored(cells, ms, n - 1);
    }
  }

  /** Defragmentation permutes the occupied cells, so that which sequences
      share a cell stays as it was, and it neither makes nor fills a hole. */
  lemma CompactedPermutes(cells: seq<Cell>)
    ensures Stored(Compacted(cells)) == Stored(cells)
    ensures EmptyCount(Compacted(cells)) == EmptyCount(cells)
  {
    MoveListFillsHoles(cells, 0, |cells| - 1);
    StoredMoved(cells, Moves(cells), |Moves(cells)|);
  }

  /** After defragmentation a block of n cells is free exactly when n cells are
      free anywhere: fragmentation never makes the cache report that it is full. */
  lemma CompactedHasBlock(cells: seq<Cell>, n: nat)
    requires 1 <= n
    ensures (exists k :: FreeBlock(Compacted(cells), k, n)) <==> n <= EmptyCount(cells)
  {
    var k := CompactedIsPrefix(cells);
    EmptyCountOfPrefix(Compacted(cells), k);
    CompactedPermutes(cells);
    if n <= EmptyCount(cells) {
      assert FreeBlock(Compacted(cells), k, n);
    } else if k' :| FreeBlock(Compacted(cells), k', n) {
      FreeBlockCount(Compacted(cells), k', n);
    }
  }
}
