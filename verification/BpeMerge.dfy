/** Merging the runes of a fragment: the naive rule, and the fast form that keeps
    a linked list inside an array and a heap of candidate pairs. */
module BpeMerge {
  import opened Helpers
  import opened BpeVocab

  // -------------------------------------------------------------- the naive rule

  /** The rank of joining parts k and k + 1. */
  function RankAt(v: Vocabulary, parts: seq<Runes>, k: nat): int
    requires k + 1 < |parts|
  {
    v.Merge(parts[k], parts[k + 1])
  }

  function Joined(parts: seq<Runes>, k: nat): (r: seq<Runes>)
    requires k + 1 < |parts|
    ensures |r| == |parts| - 1
  {
    parts[..k] + ([parts[k] + parts[k + 1]] + parts[k + 2..])
  }

  /** One step joins a neighbouring pair of least rank. */
  ghost predicate Step(v: Vocabulary, parts: seq<Runes>, k: nat) {
    && k + 1 < |parts|
    && 0 <= RankAt(v, parts, k)
    && forall j | 0 <= j && j + 1 < |parts| && 0 <= RankAt(v, parts, j) :: RankAt(v, parts, k) <= RankAt(v, parts, j)
  }

  /** Joining at the places ks, one after the other, leads from parts to parts'. */
  ghost predicate Run(v: Vocabulary, parts: seq<Runes>, ks: seq<nat>, parts': seq<Runes>)
    decreases |ks|
  {
    if ks == [] then parts == parts'
    else Step(v, parts, ks[0]) && Run(v, Joined(parts, ks[0]), ks[1..], parts')
  }

  /** Nothing is left to join. */
  ghost predicate Final(v: Vocabulary, parts: seq<Runes>) {
    forall k | 0 <= k && k + 1 < |parts| :: RankAt(v, parts, k) < 0
  }

  /** parts' is a result of byte-pair encoding the parts. */
  ghost predicate NaiveResult(v: Vocabulary, parts: seq<Runes>, parts': seq<Runes>) {
    Final(v, parts') && exists ks :: Run(v, parts, ks, parts')
  }

  lemma {:induction false} RunSnoc(v: Vocabulary, parts: seq<Runes>, ks: seq<nat>, mid: seq<Runes>, k: nat)
    requires Run(v, parts, ks, mid) && Step(v, mid, k)
    ensures Run(v, parts, ks + [k], Joined(mid, k))
    decreases |ks|
  {
    if ks == [] {
      assert [k][1..] == [];
    } else {
      RunSnoc(v, Joined(parts, ks[0]), ks[1..], mid, k);
      assert (ks + [k])[0] == ks[0] && (ks + [k])[1..] == ks[1..] + [k];
    }
  }

  function Concat(parts: seq<Runes>): Runes {
    if parts == [] then [] else parts[0] + Concat(parts[1..])
  }

  lemma {:induction false} ConcatSplit(a: seq<Runes>, b: seq<Runes>)
    ensures Concat(a + b) == Concat(a) + Concat(b)
  {
    if a == [] {
      assert a + b == b;
    } else {
      ConcatSplit(a[1..], b);
      assert (a + b)[0] == a[0] && (a + b)[1..] == a[1..] + b;
      Regroup(a[0], Concat(a[1..]), Concat(b));
    }
  }

  lemma ConcatCons(x: Runes, rest: seq<Runes>)
    ensures Concat([x] + rest) == x + Concat(rest)
  {
    assert ([x] + rest)[1..] == rest;
  }

  lemma ConcatMiddle(left: seq<Runes>, x: Runes, right: seq<Runes>)
    ensures Concat(left + ([x] + right)) == Concat(left) + (x + Concat(right))
  {
    ConcatSplit(left, [x] + right);
    ConcatCons(x, right);
  }

  lemma AroundPair(parts: seq<Runes>, k: nat)
    requires k + 1 < |parts|
    ensures parts == parts[..k] + ([parts[k]] + ([parts[k + 1]] + parts[k + 2..]))
  {
  }

  lemma JoinedConcat(parts: seq<Runes>, k: nat)
    requires k + 1 < |parts|
    ensures Concat(Joined(parts, k)) == Concat(parts)
  {
    hide Concat;
    var x, y, left, right := parts[k], parts[k + 1], parts[..k], parts[k + 2..];
    AroundPair(parts, k);
    ConcatMiddle(left, x, [y] + right);
    ConcatCons(y, right);
    ConcatMiddle(left, x + y, right);
    Regroup(x, y, Concat(right));
  }

  /** Joining neighbours never changes the text. */
  lemma {:induction false} RunConcat(v: Vocabulary, parts: seq<Runes>, ks: seq<nat>, parts': seq<Runes>)
    requires Run(v, parts, ks, parts')
    ensures Concat(parts') == Concat(parts)
    decreases |ks|
  {
    if ks != [] {
      RunConcat(v, Joined(parts, ks[0]), ks[1..], parts');
      JoinedConcat(parts, ks[0]);
    }
  }

  /** If joining stays within a set of strings, so does every run. */
  lemma {:induction false} RunClosed(v: Vocabulary, parts: seq<Runes>, ks: seq<nat>, parts': seq<Runes>)
    requires Run(v, parts, ks, parts')
    requires forall p | p in parts :: v.Encode(p) >= 0
    requires MergeClosed(v)
    ensures forall p | p in parts' :: v.Encode(p) >= 0
    decreases |ks|
  {
    if ks != [] {
      RunClosed(v, Joined(parts, ks[0]), ks[1..], parts');
    }
  }

  /** What two tokens merge into is a token. */
  ghost predicate MergeClosed(v: Vocabulary) {
    forall l, r :: v.Encode(l) >= 0 && v.Encode(r) >= 0 && v.Merge(l, r) >= 0 ==> v.Encode(l + r) >= 0
  }

  function Singles(runes: Runes): (parts: seq<Runes>)
    ensures |parts| == |runes| && forall i | 0 <= i < |runes| :: parts[i] == [runes[i]]
  {
    seq(|runes|, i requires 0 <= i < |runes| => [runes[i]])
  }

  lemma {:induction false} SinglesConcat(runes: Runes)
    ensures Concat(Singles(runes)) == runes
  {
    if runes != [] {
      SinglesConcat(runes[1..]);
      assert Singles(runes)[1..] == Singles(runes[1..]);
    }
  }

  lemma {:induction false} ConcatHolds(parts: seq<Runes>, k: nat, r: nat)
    requires k < |parts| && r in parts[k]
    ensures r in Concat(parts)
  {
    if k > 0 {
      ConcatHolds(parts[1..], k - 1, r);
    }
  }

  /** Pairs of the same rank have the same two texts. */
  lemma TiesAreEqual(v: Vocabulary, split: Bytes, ks: seq<nat>, parts: seq<Runes>, i: nat, j: nat)
    requires Run(v, Singles(MapBytes(split)), ks, parts) && i + 1 < |parts| && j + 1 < |parts|
    ensures RankAt(v, parts, i) == RankAt(v, parts, j) >= 0 ==>
      parts[i] == parts[j] && parts[i + 1] == parts[j + 1]
  {
    RunConcat(v, Singles(MapBytes(split)), ks, parts);
    SinglesConcat(MapBytes(split));
    MappedHasNoSpace(split);
    if 0x20 in parts[i] {
      ConcatHolds(parts, i, 0x20);
    } else if 0x20 in parts[j] {
      ConcatHolds(parts, j, 0x20);
    } else if RankAt(v, parts, i) == RankAt(v, parts, j) >= 0 {
      RankIsOnePair(v, parts[i], parts[i + 1], parts[j], parts[j + 1]);
    }
  }

  lemma JoinedFrom(parts: seq<Runes>, k: nat, p: Runes)
    requires k + 1 < |parts| && p in Joined(parts, k)
    ensures p in parts || p == parts[k] + parts[k + 1]
  {
  }

  lemma {:induction false} RunsNonEmpty(v: Vocabulary, parts: seq<Runes>, ks: seq<nat>, parts': seq<Runes>)
    requires Run(v, parts, ks, parts') && forall p | p in parts :: p != []
    ensures forall p | p in parts' :: p != []
    decreases |ks|
  {
    if ks != [] {
      var joined := Joined(parts, ks[0]);
      forall p | p in joined
        ensures p != []
      {
        JoinedFrom(parts, ks[0], p);
        assert parts[ks[0]] in parts;
      }
      RunsNonEmpty(v, joined, ks[1..], parts');
    }
  }

  /** Where two pairs lie apart, joining both gives the same parts in either order. */
  lemma JoinsCommute(parts: seq<Runes>, i: nat, j: nat)
    requires i + 1 < j && j + 1 < |parts|
    ensures Joined(Joined(parts, i), j - 1) == Joined(Joined(parts, j), i)
    ensures Joined(parts, i)[j - 1..j + 1] == parts[j..j + 2] && Joined(parts, j)[i..i + 2] == parts[i..i + 2]
  {
    var a, b := Joined(Joined(parts, i), j - 1), Joined(Joined(parts, j), i);
    assert |a| == |b|;
    forall k | 0 <= k < |a|
      ensures a[k] == b[k]
    {
    }
  }

  /** Where they overlap, only one of the two can be joined, with different results. */
  lemma JoinsDiffer(parts: seq<Runes>, i: nat)
    requires i + 2 < |parts| && parts[i + 1] != []
    ensures Joined(parts, i) != Joined(parts, i + 1)
  {
    assert Joined(parts, i)[i] == parts[i] + parts[i + 1] && Joined(parts, i + 1)[i] == parts[i];
  }

  /** The order among two tied pairs makes no difference to the parts after both
      joins exactly when the pairs do not overlap. If they do, three equal parts
      follow one another, and what is joined depends on the order. */
  lemma TiesCommuteIff(v: Vocabulary, split: Bytes, ks: seq<nat>, parts: seq<Runes>, i: nat, j: nat)
    requires Run(v, Singles(MapBytes(split)), ks, parts) && i < j && j + 1 < |parts|
    requires RankAt(v, parts, i) == RankAt(v, parts, j) >= 0
    ensures if i + 1 < j
            then Joined(Joined(parts, i), j - 1) == Joined(Joined(parts, j), i)
                 && RankAt(v, Joined(parts, i), j - 1) == RankAt(v, Joined(parts, j), i) == RankAt(v, parts, i)
            else parts[i] == parts[j] == parts[j + 1] && Joined(parts, i) != Joined(parts, j)
  {
    hide Joined, Run;
    TiesAreEqual(v, split, ks, parts, i, j);
    RunsNonEmpty(v, Singles(MapBytes(split)), ks, parts);
    if i + 1 < j {
      JoinsCommute(parts, i, j);
      var left, right := Joined(parts, i), Joined(parts, j);
      assert left[j - 1] == left[j - 1..j + 1][0] && left[j] == left[j - 1..j + 1][1];
      assert right[i] == right[i..i + 2][0] && right[i + 1] == right[i..i + 2][1];
    } else {
      assert parts[j] in parts;
      JoinsDiffer(parts, i);
    }
  }

  /** A vocabulary with the letter a, and the one merge of a with a. */
  const DOUBLING := Vocabulary([[0x61], [0x61, 0x61]], [1, 1], [[0x61, 0x20, 0x61]], -1, -1, false, false)

  const LEFT_FIRST: seq<Runes> := [[0x61, 0x61], [0x61]]

  const RIGHT_FIRST: seq<Runes> := [[0x61], [0x61, 0x61]]

  lemma DoublingRanks()
    ensures DOUBLING.Merge([0x61], [0x61]) == 0
    ensures DOUBLING.Merge([0x61, 0x61], [0x61]) == DOUBLING.Merge([0x61], [0x61, 0x61]) == -1
  {
    assert |[0x61, 0x61] + [0x20] + [0x61]| == 4 && |[0x61] + [0x20] + [0x61, 0x61]| == 4;
    assert [0x61] + [0x20] + [0x61] == DOUBLING.merges[0];
  }

  /** So the naive rule leaves a choice: the same text can be encoded in two ways. */
  lemma TieDecides()
    ensures NaiveResult(DOUBLING, Singles(MapBytes([0x61, 0x61, 0x61])), LEFT_FIRST)
    ensures NaiveResult(DOUBLING, Singles(MapBytes([0x61, 0x61, 0x61])), RIGHT_FIRST)
  {
    var parts := Singles(MapBytes([0x61, 0x61, 0x61]));
    assert parts == [[0x61], [0x61], [0x61]];
    DoublingRanks();
    hide Vocabulary.Merge;
    forall k | 0 <= k < 2
      ensures RankAt(DOUBLING, parts, k) == 0
    {
      assert parts[k] == parts[k + 1] == [0x61];
    }
    assert Step(DOUBLING, parts, 0) && Step(DOUBLING, parts, 1);
    assert [0x61] + [0x61] == [0x61, 0x61];
    assert parts[..0] == [] && parts[2..] == [[0x61]] && parts[..1] == [[0x61]] && parts[3..] == [];
    assert Joined(parts, 0) == LEFT_FIRST && Joined(parts, 1) == RIGHT_FIRST;
    assert [0][1..] == [] && [1][1..] == [];
    assert Run(DOUBLING, parts, [0], LEFT_FIRST);
    assert Run(DOUBLING, parts, [1], RIGHT_FIRST);
  }

  // -------------------------------------------------- the list inside the array

  /** A node holds a stretch of the runes and the indices of its neighbours; a node
      that was merged into another one has no runes left. */
  datatype Node = Node(p: int, n: int, runes: Runes)

  predicate Live(x: Node) {
    x.runes != []
  }

  /** The stretches held by the live nodes of [lo, hi), in order. */
  ghost function Parts(ns: seq<Node>, lo: nat, hi: nat): seq<Runes>
    requires lo <= hi <= |ns|
    decreases hi - lo
  {
    if lo == hi then []
    else if Live(ns[lo]) then [ns[lo].runes] + Parts(ns, lo + 1, hi)
    else Parts(ns, lo + 1, hi)
  }

  lemma {:induction false} PartsSplit(ns: seq<Node>, lo: nat, mid: nat, hi: nat)
    requires lo <= mid <= hi <= |ns|
    ensures Parts(ns, lo, hi) == Parts(ns, lo, mid) + Parts(ns, mid, hi)
    decreases mid - lo
  {
    if lo < mid {
      PartsSplit(ns, lo + 1, mid, hi);
    }
  }

  lemma {:induction false} PartsSame(ns: seq<Node>, ns': seq<Node>, lo: nat, hi: nat)
    requires lo <= hi <= |ns| == |ns'|
    requires forall i | lo <= i < hi :: ns'[i].runes == ns[i].runes
    ensures Parts(ns', lo, hi) == Parts(ns, lo, hi)
    decreases hi - lo
  {
    if lo < hi {
      PartsSame(ns, ns', lo + 1, hi);
    }
  }

  lemma {:induction false} PartsOfDead(ns: seq<Node>, lo: nat, hi: nat)
    requires lo <= hi <= |ns| && forall i | lo <= i < hi :: !Live(ns[i])
    ensures Parts(ns, lo, hi) == []
    decreases hi - lo
  {
    if lo < hi {
      PartsOfDead(ns, lo + 1, hi);
    }
  }

  /** Node a is live and well linked: it holds the runes up to its successor, and
      there is no live node in between. */
  ghost predicate Linked(ns: seq<Node>, runes: Runes, a: nat)
    requires a < |ns| == |runes|
  {
    Live(ns[a]) ==>
      && a < ns[a].n <= |ns|
      && ns[a].runes == runes[a..ns[a].n]
      && (forall c | a < c < ns[a].n :: !Live(ns[c]))
      && (ns[a].n < |ns| ==> Live(ns[ns[a].n]) && ns[ns[a].n].p == a)
  }

  ghost predicate ListOk(ns: seq<Node>, runes: Runes) {
    && |ns| == |runes|
    && (forall a | 0 <= a < |ns| :: Linked(ns, runes, a))
    && (|ns| > 0 ==> Live(ns[0]) && ns[0].p == -1)
    && (forall b | 0 < b < |ns| && Live(ns[b]) :: 0 <= ns[b].p < b && Live(ns[ns[b].p]) && ns[ns[b].p].n == b)
  }

  /** A neighbouring pair of the sequence of parts is a live node and its successor. */
  lemma {:induction false} PairAt(ns: seq<Node>, runes: Runes, lo: nat, k: nat) returns (c: nat)
    requires ListOk(ns, runes) && lo <= |ns| && k + 1 < |Parts(ns, lo, |ns|)|
    ensures lo <= c < |ns| && Live(ns[c]) && 0 <= ns[c].n < |ns|
    ensures Parts(ns, lo, |ns|)[k] == ns[c].runes && Parts(ns, lo, |ns|)[k + 1] == ns[ns[c].n].runes
    decreases |ns| - lo
  {
    if !Live(ns[lo]) {
      c := PairAt(ns, runes, lo + 1, k);
    } else if k > 0 {
      c := PairAt(ns, runes, lo + 1, k - 1);
    } else {
      c := lo;
      assert Linked(ns, runes, lo);
      PartsSplit(ns, lo + 1, ns[lo].n, |ns|);
      PartsOfDead(ns, lo + 1, ns[lo].n);
    }
  }

  /** Merging node a with its successor. */
  ghost function Merged(ns: seq<Node>, a: nat): (r: seq<Node>)
    requires a < |ns| && a < ns[a].n < |ns|
    ensures |r| == |ns|
  {
    var b := ns[a].n;
    var left, right := ns[a], ns[b];
    var r := ns[a := Node(left.p, right.n, left.runes + right.runes)][b := Node(right.p, right.n, [])];
    if 0 <= right.n < |ns| then r[right.n := Node(a, r[right.n].n, r[right.n].runes)] else r
  }

  /** The nodes after the merge, one by one. */
  lemma MergedAt(ns: seq<Node>, runes: Runes, a: nat, c: nat)
    requires ListOk(ns, runes) && a < |ns| && Live(ns[a]) && ns[a].n < |ns| && c < |ns|
    ensures a < ns[a].n && Live(ns[ns[a].n]) && ns[a].n < ns[ns[a].n].n <= |ns|
    ensures var b := ns[a].n;
      Merged(ns, a)[c] ==
        if c == a then Node(ns[a].p, ns[b].n, runes[a..ns[b].n])
        else if c == b then Node(ns[b].p, ns[b].n, [])
        else if c == ns[b].n then Node(a, ns[c].n, ns[c].runes)
        else ns[c]
  {
    assert Linked(ns, runes, a);
    assert Linked(ns, runes, ns[a].n);
    assert runes[a..ns[a].n] + runes[ns[a].n..ns[ns[a].n].n] == runes[a..ns[ns[a].n].n];
  }

  lemma MergedLinked(ns: seq<Node>, runes: Runes, a: nat, c: nat)
    requires ListOk(ns, runes) && a < |ns| && Live(ns[a]) && ns[a].n < |ns| && c < |ns|
    ensures a < ns[a].n && Linked(Merged(ns, a), runes, c)
  {
    assert Linked(ns, runes, a);
    assert Linked(ns, runes, ns[a].n);
    assert Linked(ns, runes, c);
    var r := Merged(ns, a);
    MergedAt(ns, runes, a, c);
    if Live(r[c]) {
      forall d | c < d < r[c].n
        ensures !Live(r[d])
      {
        MergedAt(ns, runes, a, d);
      }
      if r[c].n < |ns| {
        MergedAt(ns, runes, a, r[c].n);
      }
    }
  }

  lemma MergedListOk(ns: seq<Node>, runes: Runes, a: nat)
    requires ListOk(ns, runes) && a < |ns| && Live(ns[a]) && ns[a].n < |ns|
    ensures a < ns[a].n && ListOk(Merged(ns, a), runes)
  {
    hide Linked, Merged;
    MergedAt(ns, runes, a, 0);
    var r := Merged(ns, a);
    forall c | 0 <= c < |r|
      ensures Linked(r, runes, c)
    {
      MergedLinked(ns, runes, a, c);
    }
    forall b | 0 < b < |r| && Live(r[b])
      ensures 0 <= r[b].p < b && Live(r[r[b].p]) && r[r[b].p].n == b
    {
      MergedAt(ns, runes, a, b);
      MergedBack(ns, runes, a, b);
    }
  }

  lemma MergedBack(ns: seq<Node>, runes: Runes, a: nat, b: nat)
    requires ListOk(ns, runes) && a < |ns| && Live(ns[a]) && ns[a].n < |ns|
    requires a < ns[a].n && 0 < b < |ns| && Live(Merged(ns, a)[b])
    ensures var r := Merged(ns, a);
      0 <= r[b].p < b && Live(r[r[b].p]) && r[r[b].p].n == b
  {
    MergedAt(ns, runes, a, b);
    assert Linked(ns, runes, a);
    assert Linked(ns, runes, ns[a].n);
    MergedAt(ns, runes, a, a);
    if b != ns[ns[a].n].n {
      MergedAt(ns, runes, a, ns[b].p);
      assert Linked(ns, runes, ns[b].p);
    }
  }

  /** Merging a node with its successor joins the two parts and touches no other. */
  lemma MergedParts(ns: seq<Node>, runes: Runes, a: nat)
    requires ListOk(ns, runes) && a < |ns| && Live(ns[a]) && ns[a].n < |ns|
    ensures a < ns[a].n
    ensures var k := |Parts(ns, 0, a)|;
      && k + 1 < |Parts(ns, 0, |ns|)|
      && Parts(ns, 0, |ns|)[k] == ns[a].runes && Parts(ns, 0, |ns|)[k + 1] == ns[ns[a].n].runes
      && Parts(Merged(ns, a), 0, |ns|) == Joined(Parts(ns, 0, |ns|), k)
  {
    hide Parts, ListOk, Linked;
    MergedAt(ns, runes, a, a);
    var b, r, size := ns[a].n, Merged(ns, a), |ns|;
    MergedRunes(ns, runes, a);
    PartsAround(ns, a, b);
    PartsAround(r, a, b);
    PartsSame(ns, r, 0, a);
    PartsSame(ns, r, b + 1, size);
    JoinMiddle(Parts(ns, 0, a), ns[a].runes, ns[b].runes, Parts(ns, b + 1, size));
    assert [] + Parts(ns, b + 1, size) == Parts(ns, b + 1, size);
  }

  lemma JoinMiddle(left: seq<Runes>, x: Runes, y: Runes, right: seq<Runes>)
    ensures var parts := left + [x] + ([y] + right);
      && parts[|left|] == x && parts[|left| + 1] == y
      && Joined(parts, |left|) == left + [x + y] + right
  {
    var parts := left + [x] + ([y] + right);
    assert parts[..|left|] == left && parts[|left| + 2..] == right;
  }

  /** Which runes the nodes hold after a merge. */
  lemma MergedRunes(ns: seq<Node>, runes: Runes, a: nat)
    requires ListOk(ns, runes) && a < |ns| && Live(ns[a]) && ns[a].n < |ns|
    ensures a < ns[a].n && Live(ns[ns[a].n])
    ensures var r, b := Merged(ns, a), ns[a].n;
      && r[a].runes == ns[a].runes + ns[b].runes && r[b].runes == []
      && (forall c | 0 <= c < |ns| && c != a && c != b :: r[c].runes == ns[c].runes)
      && (forall c | a < c < b :: !Live(ns[c]) && !Live(r[c]))
  {
    assert Linked(ns, runes, a);
    assert Linked(ns, runes, ns[a].n);
  }

  /** The parts, when there is no live node between a live a and b. */
  lemma PartsAround(ns: seq<Node>, a: nat, b: nat)
    requires a < b < |ns| && Live(ns[a]) && forall c | a < c < b :: !Live(ns[c])
    ensures Parts(ns, 0, |ns|)
         == Parts(ns, 0, a) + [ns[a].runes] + ((if Live(ns[b]) then [ns[b].runes] else []) + Parts(ns, b + 1, |ns|))
  {
    PartsSplit(ns, 0, a, |ns|);
    PartsSplit(ns, a + 1, b, |ns|);
    PartsOfDead(ns, a + 1, b);
  }

  // --------------------------------------------------------------- the candidates

  datatype Pair = Pair(a: nat, b: nat, rank: int, value: Runes)

  /** The pair was a mergeable neighbouring pair when it was made: this speaks of
      the runes only, so it never becomes false. */
  ghost predicate PairOk(v: Vocabulary, runes: Runes, e: Pair) {
    var c := e.a + |e.value|;
    && e.a < e.b < c <= |runes|
    && e.value == runes[e.a..c]
    && e.rank == v.Merge(runes[e.a..e.b], runes[e.b..c]) >= 0
  }

  /** The pair speaks of the list as it is now. */
  predicate Current(ns: seq<Node>, e: Pair) {
    && e.a < |ns| && e.b < |ns|
    && Live(ns[e.a]) && Live(ns[e.b])
    && ns[e.a].runes + ns[e.b].runes == e.value
  }

  /** The candidate made of a live node and its successor. */
  function Candidate(v: Vocabulary, ns: seq<Node>, a: int, b: int): (e: seq<Pair>)
    requires a < 0 || b >= |ns| || (a < |ns| && 0 <= b)
  {
    if a < 0 || b >= |ns| then []
    else
      var left, right := ns[a].runes, ns[b].runes;
      var rank := v.Merge(left, right);
      if rank < 0 then [] else [Pair(a, b, rank, left + right)]
  }

  ghost predicate HeapOk(v: Vocabulary, runes: Runes, ns: seq<Node>, heap: multiset<Pair>)
    requires |ns| == |runes|
  {
    // whatever is in the heap was mergeable once, and two live nodes of a pair are still neighbours
    && (forall e | e in heap :: Sound(v, runes, ns, e))
    // every mergeable neighbouring pair is in the heap
    && (forall a | 0 <= a < |ns| && Live(ns[a]) && ns[a].n < |ns| && 0 <= ns[a].n ::
          forall e | e in Candidate(v, ns, a, ns[a].n) :: e in heap)
  }

  /** The check made when a pair is taken from the heap is exact: it passes only
      for neighbours, with the rank they have now. */
  lemma CurrentMeans(v: Vocabulary, runes: Runes, ns: seq<Node>, heap: multiset<Pair>, e: Pair)
    requires ListOk(ns, runes) && HeapOk(v, runes, ns, heap) && e in heap
    ensures e.a < |ns| && e.b < |ns|
    ensures Current(ns, e) <==>
      Live(ns[e.a]) && ns[e.a].n == e.b && Candidate(v, ns, e.a, e.b) == [e]
  {
    assert PairOk(v, runes, e);
    assert Linked(ns, runes, e.a) && Linked(ns, runes, e.b);
    if Live(ns[e.a]) && Live(ns[e.b]) {
      Stretch(runes, e.a, e.b, ns[e.b].n);
      Stretch(runes, e.a, e.b, e.a + |e.value|);
    }
  }

  lemma Stretch(runes: Runes, a: nat, b: nat, c: nat)
    requires a <= b <= c <= |runes|
    ensures runes[a..b] + runes[b..c] == runes[a..c] && |runes[a..c]| == c - a && |runes[a..b]| == b - a
  {
  }

  /** Every pair that can be joined is in the heap with its rank. */
  lemma MergeableIsInHeap(v: Vocabulary, runes: Runes, ns: seq<Node>, heap: multiset<Pair>, k: nat)
    requires ListOk(ns, runes) && HeapOk(v, runes, ns, heap) && k + 1 < |Parts(ns, 0, |ns|)|
    ensures RankAt(v, Parts(ns, 0, |ns|), k) >= 0 ==>
      exists x :: x in heap && x.rank == RankAt(v, Parts(ns, 0, |ns|), k)
  {
    hide Parts;
    var c := PairAt(ns, runes, 0, k);
    assert Linked(ns, runes, c);
    var left, right := ns[c].runes, ns[ns[c].n].runes;
    if v.Merge(left, right) >= 0 {
      var e := Pair(c, ns[c].n, v.Merge(left, right), left + right);
      assert Candidate(v, ns, c, ns[c].n) == [e];
      assert e in heap;
    }
  }

  /** A current pair of least rank is a legitimate step of the naive rule. */
  lemma LeastIsStep(v: Vocabulary, runes: Runes, ns: seq<Node>, heap: multiset<Pair>, e: Pair)
    requires ListOk(ns, runes) && HeapOk(v, runes, ns, heap) && e in heap && Current(ns, e)
    requires forall x | x in heap :: e.rank <= x.rank
    ensures Step(v, Parts(ns, 0, |ns|), |Parts(ns, 0, e.a)|)
  {
    CurrentMeans(v, runes, ns, heap, e);
    MergedParts(ns, runes, e.a);
    hide ListOk, HeapOk, Parts;
    var parts := Parts(ns, 0, |ns|);
    forall j | 0 <= j && j + 1 < |parts| && 0 <= RankAt(v, parts, j)
      ensures e.rank <= RankAt(v, parts, j)
    {
      MergeableIsInHeap(v, runes, ns, heap, j);
    }
  }

  lemma EmptyIsFinal(v: Vocabulary, runes: Runes, ns: seq<Node>, heap: multiset<Pair>)
    requires ListOk(ns, runes) && HeapOk(v, runes, ns, heap) && heap == multiset{}
    ensures Final(v, Parts(ns, 0, |ns|))
  {
    forall k | 0 <= k && k + 1 < |Parts(ns, 0, |ns|)|
      ensures RankAt(v, Parts(ns, 0, |ns|), k) < 0
    {
      MergeableIsInHeap(v, runes, ns, heap, k);
    }
  }

  /** What is in the heap stays sound under a merge. */
  ghost predicate Sound(v: Vocabulary, runes: Runes, ns: seq<Node>, e: Pair)
    requires |ns| == |runes|
  {
    PairOk(v, runes, e) && (Live(ns[e.a]) && Live(ns[e.b]) ==> ns[e.a].n == e.b)
  }

  lemma MergedSound(v: Vocabulary, runes: Runes, ns: seq<Node>, a: nat, e: Pair)
    requires ListOk(ns, runes) && a < |ns| && Live(ns[a]) && ns[a].n < |ns|
    requires Sound(v, runes, ns, e)
    ensures a < ns[a].n && Sound(v, runes, Merged(ns, a), e)
  {
    MergedAt(ns, runes, a, e.a);
    MergedAt(ns, runes, a, e.b);
    assert Linked(ns, runes, a);
  }

  /** A neighbouring pair that the merge does not touch is a pair it did not make. */
  lemma MergedCandidate(v: Vocabulary, runes: Runes, ns: seq<Node>, a: nat, c: nat)
    requires ListOk(ns, runes) && a < |ns| && Live(ns[a]) && ns[a].n < |ns|
    requires a < ns[a].n && c < |ns| && c != a && Live(Merged(ns, a)[c])
    requires 0 <= Merged(ns, a)[c].n < |ns| && c != Merged(ns, a)[a].p
    ensures Live(ns[c]) && ns[c].n == Merged(ns, a)[c].n
    ensures Candidate(v, Merged(ns, a), c, ns[c].n) == Candidate(v, ns, c, ns[c].n)
  {
    MergedAt(ns, runes, a, c);
    MergedAt(ns, runes, a, a);
    assert Linked(ns, runes, c);
    assert Linked(ns, runes, a);
    MergedAt(ns, runes, a, ns[c].n);
  }

  /** The heap with the two new neighbouring pairs. */
  ghost function WithNew(v: Vocabulary, r: seq<Node>, heap: multiset<Pair>, a: nat): multiset<Pair>
    requires a < |r| && r[a].p < a < r[a].n
  {
    heap + multiset(Candidate(v, r, r[a].p, a)) + multiset(Candidate(v, r, a, r[a].n))
  }

  lemma NewSound(v: Vocabulary, runes: Runes, r: seq<Node>, heap: multiset<Pair>, a: nat)
    requires ListOk(r, runes) && a < |r| && Live(r[a]) && r[a].p < a < r[a].n
    requires forall e | e in heap :: Sound(v, runes, r, e)
    ensures forall e | e in WithNew(v, r, heap, a) :: Sound(v, runes, r, e)
  {
    hide Candidate, Sound, ListOk;
    BackOk(r, runes, a);
    if r[a].p >= 0 {
      CandidateOk(v, runes, r, r[a].p);
    }
    CandidateOk(v, runes, r, a);
    NoCandidate(v, r, a);
  }

  /** Merging keeps the heap in order once the two new neighbouring pairs are added. */
  lemma MergedHeapOk(v: Vocabulary, runes: Runes, ns: seq<Node>, heap: multiset<Pair>, a: nat)
    requires ListOk(ns, runes) && a < |ns| && Live(ns[a]) && ns[a].n < |ns|
    requires forall e | e in heap :: Sound(v, runes, ns, e)
    requires forall c | 0 <= c < |ns| && Live(ns[c]) && c != a && ns[c].n < |ns| && 0 <= ns[c].n ::
      forall e | e in Candidate(v, ns, c, ns[c].n) :: e in heap
    ensures a < ns[a].n
    ensures var r := Merged(ns, a);
      && r[a].p < a < r[a].n
      && HeapOk(v, runes, r, heap + multiset(Candidate(v, r, r[a].p, a)) + multiset(Candidate(v, r, a, r[a].n)))
  {
    MergedLive(ns, runes, a);
    hide Candidate, Merged, Sound, ListOk;
    var r := Merged(ns, a);
    MergedListOk(ns, runes, a);
    BackOk(r, runes, a);
    forall e | e in heap
      ensures Sound(v, runes, r, e)
    {
      MergedSound(v, runes, ns, a, e);
    }
    NewSound(v, runes, r, heap, a);
    forall c | 0 <= c < |r| && Live(r[c]) && r[c].n < |r| && 0 <= r[c].n
      ensures forall e | e in Candidate(v, r, c, r[c].n) :: e in WithNew(v, r, heap, a)
    {
      if c != a && c != r[a].p {
        MergedCandidate(v, runes, ns, a, c);
      }
    }
  }

  lemma MergedLive(ns: seq<Node>, runes: Runes, a: nat)
    requires ListOk(ns, runes) && a < |ns| && Live(ns[a]) && ns[a].n < |ns|
    ensures a < ns[a].n && |Merged(ns, a)| == |ns| && Live(Merged(ns, a)[a])
  {
    MergedAt(ns, runes, a, a);
    assert |runes[a..ns[ns[a].n].n]| > 0;
  }

  lemma BackOk(ns: seq<Node>, runes: Runes, a: nat)
    requires ListOk(ns, runes) && a < |ns| && Live(ns[a])
    ensures ns[a].p < a < ns[a].n
    ensures ns[a].p >= 0 ==> Live(ns[ns[a].p]) && ns[ns[a].p].n == a
  {
    assert Linked(ns, runes, a);
  }

  lemma NoCandidate(v: Vocabulary, ns: seq<Node>, a: nat)
    requires a < |ns|
    ensures ns[a].p < 0 ==> Candidate(v, ns, ns[a].p, a) == []
    ensures ns[a].n >= |ns| ==> Candidate(v, ns, a, ns[a].n) == []
  {
  }

  lemma CandidateOk(v: Vocabulary, runes: Runes, ns: seq<Node>, a: nat)
    requires ListOk(ns, runes) && a < |ns| && Live(ns[a])
    ensures a < ns[a].n
    ensures forall e | e in Candidate(v, ns, a, ns[a].n) :: Sound(v, runes, ns, e) && e.a == a && e.b == ns[a].n
  {
    assert Linked(ns, runes, a);
    if ns[a].n < |ns| {
      assert Linked(ns, runes, ns[a].n);
    }
  }
}
