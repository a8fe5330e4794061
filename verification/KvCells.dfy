/** The metadata of the causal KV cache as plain values: cells, index ranges,
    and the view of a sequence that a caller of the cache relies on. */
module KvCells {
  type Int32 = x: int | -0x8000_0000 <= x < 0x8000_0000

  const MAX_INT32: Int32 := 0x7FFF_FFFF
  const MAX_INT := 0x7FFF_FFFF_FFFF_FFFF

  /** Go's int32 arithmetic keeps the low 32 bits. */
  function Wrap32(x: int): (r: Int32)
    ensures (r - x) % 0x1_0000_0000 == 0
  {
    (x + 0x8000_0000) % 0x1_0000_0000 - 0x8000_0000
  }

  lemma Wrap32Identity(x: int)
    requires -0x8000_0000 <= x < 0x8000_0000
    ensures Wrap32(x) == x
  {
  }

  /** One location of the cache: a position and the sequences that own it. */
  datatype Cell = Cell(pos: Int32, sequences: seq<int>)

  const EMPTY := Cell(0, [])

  predicate Occupied(c: Cell) {
    c.sequences != []
  }

  /** What is stored beside a cell: the token whose key and value were written
      there, and the rotary phase its key has been rotated to. */
  datatype Row = Row(token: int, phase: Int32)

  /** The locations in which a sequence may be found. */
  datatype Range = Range(min: int, max: int)

  const NEW_RANGE := Range(MAX_INT, 0)

  // ---------------------------------------------------------------- the view

  datatype Entry = Entry(pos: Int32, token: int)

  ghost function Contribution(c: Cell, r: Row, s: int): multiset<Entry> {
    if s in c.sequences then multiset{Entry(c.pos, r.token)} else multiset{}
  }

  /** What sequence s holds: its positions, each with the token stored for it. */
  ghost function Tokens(cells: seq<Cell>, rows: seq<Row>, s: int): multiset<Entry>
    requires |cells| == |rows|
  {
    if cells == [] then multiset{}
    else
      var n := |cells| - 1;
      Tokens(cells[..n], rows[..n], s) + Contribution(cells[n], rows[n], s)
  }

  /** Rows that all hold the same token: the view with them is the positions alone. */
  ghost function Blank(n: nat): (rows: seq<Row>)
    ensures |rows| == n && forall i | 0 <= i < n :: rows[i] == Row(0, 0)
  {
    seq(n, i => Row(0, 0))
  }

  ghost function Positions(cells: seq<Cell>, s: int): multiset<Entry> {
    Tokens(cells, Blank(|cells|), s)
  }

  /** Each occupied cell's key has been rotated to the position of the cell. */
  ghost predicate InPhase(cells: seq<Cell>, rows: seq<Row>)
    requires |cells| == |rows|
  {
    forall i | 0 <= i < |cells| && Occupied(cells[i]) :: rows[i].phase == cells[i].pos
  }

  /** Changing one location exchanges its contribution to the view. */
  lemma {:induction false} TokensUpdate(cells: seq<Cell>, rows: seq<Row>, s: int, i: nat, c: Cell, r: Row)
    requires i < |cells| == |rows|
    ensures Tokens(cells[i := c], rows[i := r], s) + Contribution(cells[i], rows[i], s)
         == Tokens(cells, rows, s) + Contribution(c, r, s)
  {
    hide Tokens, Contribution;
    var n := |cells| - 1;
    var cells', rows' := cells[i := c], rows[i := r];
    TokensSplit(cells, rows, s);
    TokensSplit(cells', rows', s);
    var last := Contribution(cells[n], rows[n], s);
    if i == n {
      assert cells'[..n] == cells[..n] && rows'[..n] == rows[..n];
      Exchange(Tokens(cells[..n], rows[..n], s), last, Contribution(c, r, s));
    } else {
      TokensUpdate(cells[..n], rows[..n], s, i, c, r);
      assert cells'[..n] == cells[..n][i := c] && rows'[..n] == rows[..n][i := r];
      Exchange(Tokens(cells'[..n], rows'[..n], s), last, Contribution(cells[i], rows[i], s));
      Exchange(Tokens(cells[..n], rows[..n], s), last, Contribution(c, r, s));
    }
  }

  lemma Exchange<T>(a: multiset<T>, b: multiset<T>, c: multiset<T>)
    ensures a + b + c == a + c + b
  {
  }

  lemma TokensSplit(cells: seq<Cell>, rows: seq<Row>, s: int)
    requires 0 < |cells| == |rows|
    ensures var n := |cells| - 1;
      Tokens(cells, rows, s) == Tokens(cells[..n], rows[..n], s) + Contribution(cells[n], rows[n], s)
  {
  }

  /** A change made cell by cell, under which an entry e of the new view comes
      from the entry g(e) of the old one, is that change of the whole view. */
  lemma {:induction false} Pullback(cells: seq<Cell>, rows: seq<Row>, s: int,
                                    cells': seq<Cell>, rows': seq<Row>, s': int, g: Entry -> Source)
    requires |cells| == |rows| == |cells'| == |rows'|
    requires forall i, e | 0 <= i < |cells| ::
      Contribution(cells'[i], rows'[i], s')[e] == Pulled(Contribution(cells[i], rows[i], s), g, e)
    ensures forall e :: Tokens(cells', rows', s')[e] == Pulled(Tokens(cells, rows, s), g, e)
  {
    if cells != [] {
      var n := |cells| - 1;
      forall i, e | 0 <= i < n
        ensures Contribution(cells'[..n][i], rows'[..n][i], s')[e]
             == Pulled(Contribution(cells[..n][i], rows[..n][i], s), g, e)
      {
        assert Contribution(cells'[i], rows'[i], s')[e] == Pulled(Contribution(cells[i], rows[i], s), g, e);
      }
      Pullback(cells[..n], rows[..n], s, cells'[..n], rows'[..n], s', g);
      forall e
        ensures Tokens(cells', rows', s')[e] == Pulled(Tokens(cells, rows, s), g, e)
      {
        assert Tokens(cells'[..n], rows'[..n], s')[e] == Pulled(Tokens(cells[..n], rows[..n], s), g, e);
        assert Contribution(cells'[n], rows'[n], s')[e] == Pulled(Contribution(cells[n], rows[n], s), g, e);
      }
    }
  }

  datatype Source = Nowhere | From(entry: Entry)

  ghost function Pulled(m: multiset<Entry>, g: Entry -> Source, e: Entry): nat {
    match g(e)
    case Nowhere => 0
    case From(e0) => m[e0]
  }

  ghost predicate Holds(cells: seq<Cell>, rows: seq<Row>, s: int, e: Entry, i: int)
    requires 0 <= i < |cells| == |rows|
  {
    s in cells[i].sequences && e == Entry(cells[i].pos, rows[i].token)
  }

  /** An entry is in the view exactly when some cell holds it. */
  lemma {:induction false} TokensWitness(cells: seq<Cell>, rows: seq<Row>, s: int, e: Entry)
    requires |cells| == |rows|
    ensures e in Tokens(cells, rows, s) <==>
            exists i :: 0 <= i < |cells| && Holds(cells, rows, s, e, i)
  {
    if cells != [] {
      var n := |cells| - 1;
      TokensWitness(cells[..n], rows[..n], s, e);
      TokensSplit(cells, rows, s);
      if i :| 0 <= i < n && Holds(cells[..n], rows[..n], s, e, i) {
        assert Holds(cells, rows, s, e, i);
      }
      if i :| 0 <= i < |cells| && Holds(cells, rows, s, e, i) {
        if i < n {
          assert Holds(cells[..n], rows[..n], s, e, i);
        }
      } else {
        assert !Holds(cells, rows, s, e, n);
      }
    }
  }

  /** Two caches agree on a sequence if every cell of theirs does. */
  lemma TokensAgree(cells: seq<Cell>, rows: seq<Row>, cells': seq<Cell>, rows': seq<Row>, s: int)
    requires |cells| == |rows| == |cells'| == |rows'|
    requires forall i | 0 <= i < |cells| ::
      Contribution(cells'[i], rows'[i], s) == Contribution(cells[i], rows[i], s)
    ensures Tokens(cells', rows', s) == Tokens(cells, rows, s)
  {
    var same := (x: Entry) => From(x);
    Pullback(cells, rows, s, cells', rows', s, same);
    forall e ensures Tokens(cells', rows', s)[e] == Tokens(cells, rows, s)[e] {
      assert Pulled(Tokens(cells, rows, s), same, e) == Tokens(cells, rows, s)[e];
    }
  }

  // --------------------------------------------------------------- the index

  /** Range r says exactly where sequence s lies. */
  ghost predicate ExactRange(cells: seq<Cell>, s: int, r: Range) {
    && (forall i | 0 <= i < |cells| && s in cells[i].sequences :: r.min <= i <= r.max)
    && (r == NEW_RANGE || (0 <= r.min <= r.max < |cells| && s in cells[r.min].sequences && s in cells[r.max].sequences))
  }

  ghost predicate Listed(cells: seq<Cell>, ranges: map<int, Range>, s: int) {
    if s in ranges then ExactRange(cells, s, ranges[s])
    else forall i | 0 <= i < |cells| :: s !in cells[i].sequences
  }

  /** The range index agrees with a scan of the cells. */
  ghost predicate IndexOk(cells: seq<Cell>, ranges: map<int, Range>) {
    forall s :: Listed(cells, ranges, s)
  }

  // ------------------------------------------------------------ counting holes

  ghost function EmptyCount(cells: seq<Cell>): nat {
    if cells == [] then 0
    else EmptyCount(cells[..|cells| - 1]) + if Occupied(cells[|cells| - 1]) then 0 else 1
  }

  lemma {:induction false} EmptyCountUpdate(cells: seq<Cell>, i: nat, c: Cell)
    requires i < |cells|
    ensures EmptyCount(cells[i := c]) + (if Occupied(cells[i]) then 0 else 1)
         == EmptyCount(cells) + (if Occupied(c) then 0 else 1)
  {
    var n := |cells| - 1;
    if i == n {
      assert cells[i := c][..n] == cells[..n];
    } else {
      EmptyCountUpdate(cells[..n], i, c);
      assert cells[i := c][..n] == cells[..n][i := c];
    }
  }

  /** When the occupied cells form a prefix, the empty ones are all the rest. */
  lemma {:induction false} EmptyCountOfPrefix(cells: seq<Cell>, k: nat)
    requires k <= |cells|
    requires forall i | 0 <= i < |cells| :: Occupied(cells[i]) <==> i < k
    ensures EmptyCount(cells) == |cells| - k
  {
    if cells != [] {
      var n := |cells| - 1;
      EmptyCountOfPrefix(cells[..n], if k <= n then k else n);
    }
  }

  /** A run of n empty cells starting at k. */
  ghost predicate FreeBlock(cells: seq<Cell>, k: int, n: nat) {
    0 <= k && k + n <= |cells| && forall i | k <= i < k + n :: !Occupied(cells[i])
  }

  lemma {:induction false} FreeBlockCount(cells: seq<Cell>, k: int, n: nat)
    requires FreeBlock(cells, k, n)
    ensures n <= EmptyCount(cells)
  {
    if n != 0 {
      var last := |cells| - 1;
      if k + n <= last {
        FreeBlockCount(cells[..last], k, n);
      } else {
        FreeBlockCount(cells[..last], k, n - 1);
        assert !Occupied(cells[last]);
      }
    }
  }
}
