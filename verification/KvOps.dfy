/** What the operations of the cache do to its cells and rows, and what that
    means for the views of the sequences. */
module KvOps {
  import opened KvCells

  // ---------------------------------------------------------- storing a batch

  ghost function BatchCells(positions: seq<Int32>, seqs: seq<int>): (r: seq<Cell>)
    requires |positions| == |seqs|
    ensures |r| == |positions| && forall i | 0 <= i < |r| :: r[i] == Cell(positions[i], [seqs[i]])
  {
    seq(|positions|, i requires 0 <= i < |positions| => Cell(positions[i], [seqs[i]]))
  }

  /** Replaces the elements of s from loc on by those of part. */
  ghost function Overlay<T>(s: seq<T>, loc: nat, part: seq<T>): (r: seq<T>)
    requires loc + |part| <= |s|
    ensures |r| == |s|
    ensures forall i | 0 <= i < |s| :: r[i] == if loc <= i < loc + |part| then part[i - loc] else s[i]
  {
    s[..loc] + part + s[loc + |part|..]
  }

  lemma OverlayMore<T>(s: seq<T>, loc: nat, part: seq<T>, n: nat)
    requires loc + |part| <= |s| && n < |part|
    ensures Overlay(s, loc, part[..n + 1]) == Overlay(s, loc, part[..n])[loc + n := part[n]]
  {
  }

  /** Storing one cell where there was none adds its contribution. */
  lemma StoreAddsTokens(cells: seq<Cell>, rows: seq<Row>, i: nat, c: Cell, r: Row, s: int)
    requires i < |cells| == |rows| && !Occupied(cells[i])
    ensures Tokens(cells[i := c], rows[i := r], s) == Tokens(cells, rows, s) + Contribution(c, r, s)
  {
    TokensUpdate(cells, rows, s, i, c, r);
  }

  /** A batch stored in free cells is added to the views, and nothing else is. */
  lemma {:induction false} OverlayAddsTokens(cells: seq<Cell>, rows: seq<Row>, loc: nat,
                                             cs: seq<Cell>, rs: seq<Row>, n: nat, s: int)
    requires |cells| == |rows| && |cs| == |rs| && n <= |cs|
    requires FreeBlock(cells, loc, |cs|)
    ensures Tokens(Overlay(cells, loc, cs[..n]), Overlay(rows, loc, rs[..n]), s)
         == Tokens(cells, rows, s) + Tokens(cs[..n], rs[..n], s)
  {
    hide Tokens, Contribution;
    if n == 0 {
      assert Overlay(cells, loc, cs[..0]) == cells && Overlay(rows, loc, rs[..0]) == rows;
      NoTokens(cs[..0], rs[..0], s);
    } else {
      var c0, r0 := Overlay(cells, loc, cs[..n - 1]), Overlay(rows, loc, rs[..n - 1]);
      OverlayAddsTokens(cells, rows, loc, cs, rs, n - 1, s);
      OverlayMore(cells, loc, cs, n - 1);
      OverlayMore(rows, loc, rs, n - 1);
      StoreAddsTokens(c0, r0, loc + n - 1, cs[n - 1], rs[n - 1], s);
      TokensPrefix(cs, rs, n - 1, s);
      Assoc(Tokens(cells, rows, s), Tokens(cs[..n - 1], rs[..n - 1], s), Contribution(cs[n - 1], rs[n - 1], s));
    }
  }

  lemma NoTokens(cells: seq<Cell>, rows: seq<Row>, s: int)
    requires |cells| == |rows| == 0
    ensures Tokens(cells, rows, s) == multiset{}
  {
  }

  lemma TokensPrefix(cells: seq<Cell>, rows: seq<Row>, n: nat, s: int)
    requires |cells| == |rows| && n < |cells|
    ensures Tokens(cells[..n + 1], rows[..n + 1], s)
         == Tokens(cells[..n], rows[..n], s) + Contribution(cells[n], rows[n], s)
  {
    TokensSplit(cells[..n + 1], rows[..n + 1], s);
    assert cells[..n + 1][..n] == cells[..n] && rows[..n + 1][..n] == rows[..n];
  }

  lemma Assoc<T>(a: multiset<T>, b: multiset<T>, c: multiset<T>)
    ensures (a + b) + c == a + (b + c)
  {
  }

  lemma BatchAddsTokens(cells: seq<Cell>, rows: seq<Row>, loc: nat, cs: seq<Cell>, rs: seq<Row>, s: int)
    requires |cells| == |rows| && |cs| == |rs| && FreeBlock(cells, loc, |cs|)
    ensures Tokens(Overlay(cells, loc, cs), Overlay(rows, loc, rs), s) == Tokens(cells, rows, s) + Tokens(cs, rs, s)
  {
    assert cs[..|cs|] == cs && rs[..|rs|] == rs;
    OverlayAddsTokens(cells, rows, loc, cs, rs, |cs|, s);
  }

  lemma BatchAddsPositions(cells: seq<Cell>, loc: nat, cs: seq<Cell>, s: int)
    requires FreeBlock(cells, loc, |cs|)
    ensures Positions(Overlay(cells, loc, cs), s) == Positions(cells, s) + Positions(cs, s)
  {
    BatchAddsTokens(cells, Blank(|cells|), loc, cs, Blank(|cs|), s);
    assert Overlay(Blank(|cells|), loc, Blank(|cs|)) == Blank(|cells|);
  }

  // ---------------------------------------------------------- sharing a prefix

  /** The list without the elements equal to s. */
  function Drop(ss: seq<int>, s: int): (r: seq<int>)
    ensures forall x :: x in r <==> x in ss && x != s
  {
    if ss == [] then []
    else if ss[0] == s then Drop(ss[1..], s)
    else [ss[0]] + Drop(ss[1..], s)
  }

  function CopyCell(c: Cell, src: int, dst: int, len: Int32): Cell {
    var ss := if dst in c.sequences then Drop(c.sequences, dst) else c.sequences;
    Cell(c.pos, if src in ss && c.pos < len then ss + [dst] else ss)
  }

  ghost predicate IsCopy(cells: seq<Cell>, cells': seq<Cell>, src: int, dst: int, len: Int32) {
    |cells'| == |cells| && forall i | 0 <= i < |cells| :: cells'[i] == CopyCell(cells[i], src, dst, len)
  }

  lemma CopyKeepsPhase(cells: seq<Cell>, rows: seq<Row>, cells': seq<Cell>, src: int, dst: int, len: Int32)
    requires |cells| == |rows| && IsCopy(cells, cells', src, dst, len) && InPhase(cells, rows)
    ensures InPhase(cells', rows)
  {
    forall i | 0 <= i < |cells| && Occupied(cells'[i])
      ensures rows[i].phase == cells'[i].pos
    {
      assert cells'[i] == CopyCell(cells[i], src, dst, len);
    }
  }

  /** Between distinct sequences, the destination becomes exactly the prefix of
      the source; no other sequence changes. */
  lemma CopyPrefixViews(cells: seq<Cell>, rows: seq<Row>, cells': seq<Cell>, src: int, dst: int, len: Int32, s: int)
    requires |cells| == |rows| && IsCopy(cells, cells', src, dst, len) && src != dst
    ensures s != dst ==> Tokens(cells', rows, s) == Tokens(cells, rows, s)
    ensures s == dst ==> forall e ::
      Tokens(cells', rows, dst)[e] == if e.pos < len then Tokens(cells, rows, src)[e] else 0
  {
    if s != dst {
      TokensAgree(cells, rows, cells', rows, s);
    } else {
      var g := (x: Entry) => if x.pos < len then From(x) else Nowhere;
      Pullback(cells, rows, src, cells', rows, dst, g);
      forall e
        ensures Tokens(cells', rows, dst)[e] == if e.pos < len then Tokens(cells, rows, src)[e] else 0
      {
        assert Tokens(cells', rows, dst)[e] == Pulled(Tokens(cells, rows, src), g, e);
      }
    }
  }

  /** Copying a sequence onto itself erases it: that is a copy of its prefix
      exactly when the prefix was empty. */
  lemma CopyOntoItself(cells: seq<Cell>, rows: seq<Row>, cells': seq<Cell>, s: int, len: Int32)
    requires |cells| == |rows| && IsCopy(cells, cells', s, s, len)
    ensures Tokens(cells', rows, s) == multiset{}
    ensures (forall e: Entry :: Tokens(cells', rows, s)[e] == if e.pos < len then Tokens(cells, rows, s)[e] else 0)
       <==> forall i | 0 <= i < |cells| && s in cells[i].sequences :: len <= cells[i].pos
  {
    forall e
      ensures e !in Tokens(cells', rows, s)
    {
      TokensWitness(cells', rows, s, e);
    }
    if i :| 0 <= i < |cells| && s in cells[i].sequences && cells[i].pos < len {
      var e := Entry(cells[i].pos, rows[i].token);
      TokensWitness(cells, rows, s, e);
      assert Holds(cells, rows, s, e, i);
      assert Tokens(cells', rows, s)[e] == 0 != Tokens(cells, rows, s)[e];
    } else {
      forall e: Entry | e.pos < len
        ensures e !in Tokens(cells, rows, s)
      {
        TokensWitness(cells, rows, s, e);
      }
    }
  }

  // ------------------------------------------------------- removing a stretch

  function Offset(begin: Int32, end: Int32): Int32 {
    if end == MAX_INT32 then 0 else Wrap32(begin - end)
  }

  /** The cell stands in the way: it would have to be renumbered, but is shared. */
  predicate Blocked(c: Cell, s: int, begin: Int32, end: Int32) {
    && s in c.sequences
    && !(begin <= c.pos < end)
    && end <= c.pos
    && exists x :: x in c.sequences && x != s
  }

  function RemoveCell(c: Cell, s: int, begin: Int32, end: Int32): Cell {
    if s !in c.sequences then c
    else if begin <= c.pos < end then Cell(c.pos, Drop(c.sequences, s))
    else if end <= c.pos then Cell(Wrap32(c.pos + Offset(begin, end)), c.sequences)
    else c
  }

  /** Removal as far as location n. */
  ghost predicate RemovedTo(cells: seq<Cell>, cells': seq<Cell>, s: int, begin: Int32, end: Int32, n: nat) {
    && |cells'| == |cells|
    && n <= |cells|
    && (forall i | 0 <= i < n :: !Blocked(cells[i], s, begin, end))
    && forall i | 0 <= i < |cells| :: cells'[i] == if i < n then RemoveCell(cells[i], s, begin, end) else cells[i]
  }

  /** Removal, complete or cut short, never changes the view of another sequence. */
  lemma RemoveKeepsOthers(cells: seq<Cell>, rows: seq<Row>, cells': seq<Cell>, rows': seq<Row>,
                          s: int, begin: Int32, end: Int32, n: nat, other: int)
    requires |cells| == |rows| == |rows'| && RemovedTo(cells, cells', s, begin, end, n)
    requires other != s
    requires forall i | 0 <= i < |rows| :: rows'[i].token == rows[i].token
    ensures Tokens(cells', rows', other) == Tokens(cells, rows, other)
  {
    forall i | 0 <= i < |cells|
      ensures Contribution(cells'[i], rows'[i], other) == Contribution(cells[i], rows[i], other)
    {
      if i < n {
        assert !Blocked(cells[i], s, begin, end);
      }
    }
    TokensAgree(cells, rows, cells', rows', other);
  }

  /** Where an entry of the sequence comes from once [begin, end) has been cut. */
  function CutSource(begin: Int32, end: Int32, e: Entry): Source {
    if end == MAX_INT32 then if begin <= e.pos < end then Nowhere else From(e)
    else if e.pos < begin then From(e)
    else if e.pos + (end - begin) < 0x8000_0000 then From(Entry(e.pos + (end - begin), e.token))
    else Nowhere
  }

  ghost function Cut(begin: Int32, end: Int32): Entry -> Source {
    (x: Entry) => CutSource(begin, end, x)
  }

  /** A complete removal cuts [begin, end) out of the sequence and renumbers what
      follows so that it continues at begin. */
  lemma {:induction false} RemoveCuts(
      cells: seq<Cell>, rows: seq<Row>, cells': seq<Cell>, rows': seq<Row>, s: int, begin: Int32, end: Int32)
    requires |cells| == |rows| == |rows'| && RemovedTo(cells, cells', s, begin, end, |cells|)
    requires forall i | 0 <= i < |rows| :: rows'[i].token == rows[i].token
    requires 0 <= begin <= end
    ensures forall e :: Tokens(cells', rows', s)[e] == Pulled(Tokens(cells, rows, s), Cut(begin, end), e)
  {
    forall i, e | 0 <= i < |cells|
      ensures Contribution(cells'[i], rows'[i], s)[e] == Pulled(Contribution(cells[i], rows[i], s), Cut(begin, end), e)
    {
      var c := cells[i];
      assert cells'[i] == RemoveCell(c, s, begin, end);
      if s in c.sequences && end <= c.pos && end != MAX_INT32 {
        Wrap32Identity(begin - end);
        Wrap32Identity(c.pos + (begin - end));
      }
    }
    Pullback(cells, rows, s, cells', rows', s, Cut(begin, end));
  }

  /** The cells whose keys are rotated by a removal. */
  predicate Rotated(c: Cell, s: int, beginIndex: Int32) {
    s in c.sequences && beginIndex <= c.pos
  }

  function RotateRow(r: Row, offset: Int32): Row {
    Row(r.token, Wrap32(r.phase + offset))
  }

  /** The rows after the keys of the sequence from beginIndex on were rotated. */
  ghost predicate ShiftedRows(
      cells: seq<Cell>, rows: seq<Row>, rows': seq<Row>, s: int, beginIndex: Int32, offset: Int32)
  {
    && |rows'| == |rows| == |cells|
    && forall i | 0 <= i < |rows| ::
      rows'[i] == if Rotated(cells[i], s, beginIndex) then RotateRow(rows[i], offset) else rows[i]
  }

  /** The rotation that a removal starts at end + offset touches exactly the cells
      it renumbered, and none of them is shared; so keys stay in phase. */
  lemma RemoveKeepsPhase(
      cells: seq<Cell>, rows: seq<Row>, cells': seq<Cell>, rows': seq<Row>, s: int, begin: Int32, end: Int32)
    requires |cells| == |rows| && RemovedTo(cells, cells', s, begin, end, |cells|)
    requires 0 <= begin <= end
    requires if end == MAX_INT32 then rows' == rows
             else ShiftedRows(cells', rows, rows', s, Wrap32(end + Offset(begin, end)), Offset(begin, end))
    requires InPhase(cells, rows)
    ensures InPhase(cells', rows')
    ensures end != MAX_INT32 ==> forall i | 0 <= i < |cells| ::
      Rotated(cells'[i], s, Wrap32(end + Offset(begin, end))) <==> s in cells[i].sequences && end <= cells[i].pos
    ensures forall i | 0 <= i < |cells| && rows'[i] != rows[i] :: forall x :: x in cells'[i].sequences ==> x == s
  {
    if end != MAX_INT32 {
      Wrap32Identity(begin - end);
      Wrap32Identity(end + (begin - end));
      forall i | 0 <= i < |cells|
        ensures Rotated(cells'[i], s, begin) <==> s in cells[i].sequences && end <= cells[i].pos
        ensures rows'[i] != rows[i] ==> forall x :: x in cells'[i].sequences ==> x == s
        ensures Occupied(cells'[i]) ==> rows'[i].phase == cells'[i].pos
      {
        var c := cells[i];
        assert cells'[i] == RemoveCell(c, s, begin, end) && !Blocked(c, s, begin, end);
        if s in c.sequences && end <= c.pos {
          Wrap32Identity(c.pos + (begin - end));
        }
      }
    }
  }

  /** The documented way back after a failed removal: removing [0, MaxInt32).
      It succeeds and leaves nothing of the sequence exactly when no cell of
      the sequence has a negative position or the position MaxInt32. */
  ghost predicate Recoverable(cells: seq<Cell>, s: int) {
    forall i | 0 <= i < |cells| && s in cells[i].sequences :: 0 <= cells[i].pos < MAX_INT32
  }

  lemma RecoveryEmpties(cells: seq<Cell>, s: int)
    ensures (forall i | 0 <= i < |cells| ::
               && !Blocked(cells[i], s, 0, MAX_INT32)
               && s !in RemoveCell(cells[i], s, 0, MAX_INT32).sequences)
       <==> Recoverable(cells, s)
  {
    if !Recoverable(cells, s) {
      var i :| 0 <= i < |cells| && s in cells[i].sequences && !(0 <= cells[i].pos < MAX_INT32);
      assert s in RemoveCell(cells[i], s, 0, MAX_INT32).sequences;
    }
  }

  /** A failed removal leaves the sequence recoverable. */
  lemma RemoveKeepsRecoverable(cells: seq<Cell>, cells': seq<Cell>, s: int, begin: Int32, end: Int32, n: nat)
    requires RemovedTo(cells, cells', s, begin, end, n) && Recoverable(cells, s)
    requires 0 <= begin <= end
    ensures Recoverable(cells', s)
  {
    forall i | 0 <= i < |cells| && s in cells'[i].sequences
      ensures 0 <= cells'[i].pos < MAX_INT32
    {
      if i < n && end <= cells[i].pos && end != MAX_INT32 {
        Wrap32Identity(begin - end);
        Wrap32Identity(cells[i].pos + (begin - end));
      }
    }
  }

  /** The keys of all cells that some sequence other than s owns are in phase. */
  ghost predicate InPhaseBut(cells: seq<Cell>, rows: seq<Row>, s: int)
    requires |cells| == |rows|
  {
    forall i, x | 0 <= i < |cells| && x in cells[i].sequences && x != s :: rows[i].phase == cells[i].pos
  }

  /** A failed removal may leave cells renumbered whose keys were not rotated, but
      none that another sequence owns. */
  lemma FailureKeepsPhase(cells: seq<Cell>, rows: seq<Row>, failed: seq<Cell>, s: int, begin: Int32, end: Int32, n: nat)
    requires |cells| == |rows| && InPhase(cells, rows) && RemovedTo(cells, failed, s, begin, end, n)
    ensures InPhaseBut(failed, rows, s)
  {
    forall i, x | 0 <= i < |cells| && x in failed[i].sequences && x != s
      ensures rows[i].phase == failed[i].pos
    {
      if i < n {
        assert failed[i] == RemoveCell(cells[i], s, begin, end) && !Blocked(cells[i], s, begin, end);
      }
    }
  }

  /** The way back clears all cells that only s owns. */
  lemma RecoveryKeepsPhase(failed: seq<Cell>, cleared: seq<Cell>, rows: seq<Row>, s: int)
    requires |failed| == |rows| && Recoverable(failed, s) && InPhaseBut(failed, rows, s)
    requires RemovedTo(failed, cleared, s, 0, MAX_INT32, |failed|)
    ensures InPhase(cleared, rows)
  {
    forall i | 0 <= i < |failed| && Occupied(cleared[i])
      ensures rows[i].phase == cleared[i].pos
    {
      assert cleared[i] == RemoveCell(failed[i], s, 0, MAX_INT32);
      assert cleared[i].sequences[0] in failed[i].sequences && cleared[i].sequences[0] != s;
    }
  }

  /** So every key that is left after a failed removal and the way back is in phase. */
  lemma RecoveryRestoresPhase(cells: seq<Cell>, failed: seq<Cell>, cleared: seq<Cell>, rows: seq<Row>,
                              s: int, begin: Int32, end: Int32, n: nat)
    requires |cells| == |rows| && InPhase(cells, rows) && Recoverable(cells, s)
    requires 0 <= begin <= end && RemovedTo(cells, failed, s, begin, end, n)
    requires RemovedTo(failed, cleared, s, 0, MAX_INT32, |cells|)
    ensures InPhase(cleared, rows)
  {
    RemoveKeepsRecoverable(cells, failed, s, begin, end, n);
    FailureKeepsPhase(cells, rows, failed, s, begin, end, n);
    RecoveryKeepsPhase(failed, cleared, rows, s);
  }

  // ------------------------------------------- what one call of Remove promises

  /** The views after a removal that went as far as location n. */
  ghost predicate RemoveViews(cells: seq<Cell>, rows: seq<Row>, cells': seq<Cell>, rows': seq<Row>,
                              s: int, begin: Int32, end: Int32, complete: bool)
    requires |cells| == |rows| && |cells'| == |rows'|
  {
    && (forall other | other != s :: Tokens(cells', rows', other) == Tokens(cells, rows, other))
    && (complete && 0 <= begin <= end ==>
          forall e :: Tokens(cells', rows', s)[e] == Pulled(Tokens(cells, rows, s), Cut(begin, end), e))
  }

  lemma RemoveHasViews(cells: seq<Cell>, rows: seq<Row>, cells': seq<Cell>, rows': seq<Row>,
                       s: int, begin: Int32, end: Int32, n: nat)
    requires |cells| == |rows| == |rows'| && RemovedTo(cells, cells', s, begin, end, n)
    requires forall i | 0 <= i < |rows| :: rows'[i].token == rows[i].token
    ensures RemoveViews(cells, rows, cells', rows', s, begin, end, n == |cells|)
  {
    forall other | other != s
      ensures Tokens(cells', rows', other) == Tokens(cells, rows, other)
    {
      RemoveKeepsOthers(cells, rows, cells', rows', s, begin, end, n, other);
    }
    if n == |cells| && 0 <= begin <= end {
      RemoveCuts(cells, rows, cells', rows', s, begin, end);
    }
  }
}
