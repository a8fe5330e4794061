/** The attention mask over the window of the cache that a batch needs. */
module KvMask {
  import opened KvCells

  function RoundDown(length: int, pad: nat): int
    requires pad > 0 && 0 <= length
  {
    (length / pad) * pad
  }

  function RoundUp(length: int, pad: nat): int
    requires pad > 0 && 0 <= length
  {
    ((length + pad - 1) / pad) * pad
  }

  /** The least multiple of pad that is no less than length. */
  lemma RoundUpLeast(length: int, pad: nat)
    requires pad > 0 && 0 <= length
    ensures length <= RoundUp(length, pad) < length + pad
    ensures RoundUp(length, pad) % pad == 0
    ensures forall m | m % pad == 0 && length <= m :: RoundUp(length, pad) <= m
  {
    var q := (length + pad - 1) / pad;
    MultipleMod(q, pad);
    assert length + pad - 1 == q * pad + (length + pad - 1) % pad;
    forall m | m % pad == 0 && length <= m
      ensures RoundUp(length, pad) <= m
    {
      var k := m / pad;
      assert m == k * pad;
      if k < q {
        MulLess(k, q, pad);
      } else {
        MulLeq(q, k, pad);
      }
    }
  }

  lemma MultipleMod(q: int, pad: nat)
    requires pad > 0
    ensures (q * pad) % pad == 0
  {
    var d, r := (q * pad) / pad, (q * pad) % pad;
    assert q * pad == d * pad + r;
    assert (q - d) * pad == r;
    if q - d >= 1 {
      MulLeq(1, q - d, pad);
    } else if q - d <= -1 {
      MulLeq(q - d, -1, pad);
    }
  }

  lemma MulLess(a: int, b: int, c: int)
    requires a < b && c > 0
    ensures a * c + c <= b * c
  {
    assert (b - a - 1) * c >= 0;
    assert b * c - a * c - c == (b - a - 1) * c;
  }

  lemma MulLeq(a: int, b: int, c: int)
    requires a <= b && c >= 0
    ensures a * c <= b * c
  {
    assert (b - a) * c >= 0;
    assert b * c - a * c == (b - a) * c;
  }

  lemma RoundDownBounds(length: int, pad: nat)
    requires pad > 0 && 0 <= length
    ensures 0 <= RoundDown(length, pad) <= length < RoundDown(length, pad) + pad
    ensures RoundDown(length, pad) % pad == 0
  {
    MultipleMod(length / pad, pad);
    assert length == (length / pad) * pad + length % pad;
    MulLeq(0, length / pad, pad);
  }

  /** The token at position p of sequence s may attend to the cell. */
  predicate Visible(c: Cell, s: int, p: Int32, windowSize: Int32) {
    s in c.sequences && c.pos <= p && Wrap32(p - windowSize) <= c.pos
  }

  /** For positions a model can produce, visibility is causality within a sliding
      window. */
  lemma VisibleMeans(c: Cell, s: int, p: Int32, windowSize: Int32)
    requires 0 <= p && 0 <= windowSize
    ensures Visible(c, s, p, windowSize) <==> s in c.sequences && p - windowSize <= c.pos <= p
  {
    Wrap32Identity(p - windowSize);
  }

  /** Row-major: entry (i, j) says whether batch token i may attend to window cell j. */
  datatype Mask = Mask(open: seq<bool>, length: int, batchSize: int)

  ghost predicate Covers(window: Range, cells: seq<Cell>, positions: seq<Int32>, seqs: seq<int>, windowSize: Int32)
    requires |positions| == |seqs|
  {
    && 0 <= window.min <= window.max < |cells|
    && forall i, j | 0 <= i < |positions| && 0 <= j < |cells| && Visible(cells[j], seqs[i], positions[i], windowSize) ::
      window.min <= j <= window.max
  }

  /** The window is no wider than whole pads make it: it begins less than a pad before
      some cell of a sequence of the batch, and ends less than a pad behind one. */
  ghost predicate Tight(window: Range, cells: seq<Cell>, seqs: seq<int>, pad: nat) {
    && (exists i, t ::
          0 <= i < |cells| && 0 <= t < |seqs| && seqs[t] in cells[i].sequences && window.min <= i < window.min + pad)
    && exists i, t ::
         0 <= i < |cells| && 0 <= t < |seqs| && seqs[t] in cells[i].sequences && window.max - pad < i <= window.max
  }

  /** Where the mask has its entry for batch token i and cell j of the window. */
  function Slot(m: Mask, window: Range, i: int, j: int): int {
    i * m.length + (j - window.min)
  }

  predicate IsOpen(m: Mask, window: Range, i: int, j: int) {
    0 <= Slot(m, window, i, j) < |m.open| && m.open[Slot(m, window, i, j)]
  }

  ghost predicate MaskOk(m: Mask, window: Range, cells: seq<Cell>, positions: seq<Int32>, seqs: seq<int>,
                         windowSize: Int32, batchPadding: nat)
    requires |positions| == |seqs| && batchPadding > 0 && 0 <= window.min <= window.max < |cells|
  {
    && m.length == window.max - window.min + 1
    && m.batchSize == RoundUp(|positions|, batchPadding)
    && |m.open| == m.batchSize * m.length
    && |positions| * m.length <= |m.open|
    && (forall i, j | 0 <= i < |positions| && window.min <= j <= window.max ::
          IsOpen(m, window, i, j) <==> Visible(cells[j], seqs[i], positions[i], windowSize))
    && (forall k | |positions| * m.length <= k < |m.open| :: !m.open[k])
  }

  /** The windowed mask is the mask over the whole cache: a token attends to a
      cell of the cache exactly when the cell lies in the window and its entry is
      open. */
  lemma MaskIsComplete(m: Mask, window: Range, cells: seq<Cell>, positions: seq<Int32>, seqs: seq<int>,
                       windowSize: Int32, batchPadding: nat, i: nat, j: nat)
    requires |positions| == |seqs| && batchPadding > 0 && i < |positions| && j < |cells|
    requires Covers(window, cells, positions, seqs, windowSize)
    requires MaskOk(m, window, cells, positions, seqs, windowSize, batchPadding)
    requires 0 <= positions[i] && 0 <= windowSize
    ensures window.min <= j <= window.max && IsOpen(m, window, i, j) <==>
            seqs[i] in cells[j].sequences && positions[i] - windowSize <= cells[j].pos <= positions[i]
  {
    VisibleMeans(cells[j], seqs[i], positions[i], windowSize);
  }
}
