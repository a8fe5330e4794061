/** The merge loop of the encoder, run in place on an array of nodes. */
module BpeHeap {
  import opened BpeVocab
  import opened BpeMerge

  /** A pair of least rank; which one, when several have that rank, is left open. */
  method PopMin(pairs: multiset<Pair>) returns (e: Pair)
    requires pairs != multiset{}
    ensures e in pairs && forall x | x in pairs :: e.rank <= x.rank
  {
    SomePair(pairs);
    e :| e in pairs;
    var rest := pairs[e := 0];
    while rest != multiset{}
      invariant e in pairs && rest <= pairs
      invariant forall x | x in pairs && x !in rest :: e.rank <= x.rank
      decreases |rest|
    {
      SomePair(rest);
      var x :| x in rest;
      if x.rank < e.rank {
        e := x;
      }
      rest := rest[x := 0];
    }
  }

  lemma SomePair(pairs: multiset<Pair>)
    ensures pairs == multiset{} || exists e :: e in pairs
  {
    if forall e :: e !in pairs {
      assert pairs == multiset{};
    }
  }

  /** Encodes the runes of a fragment: the result is one of the naive rule. */
  method MergeFragment(v: Vocabulary, runes: Runes) returns (parts: seq<Runes>)
    ensures NaiveResult(v, Singles(runes), parts)
  {
    hide Parts, ListOk, HeapOk, Run, Step, Joined, Final;
    var merges := new Node[|runes|](i requires 0 <= i < |runes| => Node(i - 1, i + 1, [runes[i]]));
    InitialOk(runes, merges[..]);
    var pairs := AllCandidates(v, runes, merges);
    ghost var ks: seq<nat> := [];
    RunNothing(v, Singles(runes));
    while pairs != multiset{}
      invariant merges.Length == |runes| && ListOk(merges[..], runes) && HeapOk(v, runes, merges[..], pairs)
      invariant Run(v, Singles(runes), ks, Parts(merges[..], 0, merges.Length))
      decreases |Parts(merges[..], 0, merges.Length)|, |pairs|
    {
      var e := PopMin(pairs);
      ghost var ns := merges[..];
      CurrentMeans(v, runes, ns, pairs, e);
      if Current(merges[..], e) {
        var k := MergeStep(v, runes, merges, pairs, e);
        RunSnoc(v, Singles(runes), ks, Parts(ns, 0, |ns|), k);
        ks := ks + [k];
        pairs := pairs - multiset{e}
          + multiset(Candidate(v, merges[..], merges[e.a].p, e.a))
          + multiset(Candidate(v, merges[..], e.a, merges[e.a].n));
      } else {
        StaleOk(v, runes, ns, pairs, e);
        pairs := pairs - multiset{e};
      }
    }
    EmptyIsFinal(v, runes, merges[..], pairs);
    parts := Collect(merges);
  }

  /** The candidates of the initial list. */
  method AllCandidates(v: Vocabulary, runes: Runes, merges: array<Node>) returns (pairs: multiset<Pair>)
    requires IsInitial(runes, merges[..])
    ensures HeapOk(v, runes, merges[..], pairs)
  {
    hide Candidate, Sound, ListOk, HeapOk, Gathered;
    pairs := multiset{};
    InitialOk(runes, merges[..]);
    NoneGathered(v, runes, merges[..]);
    for i := 0 to |runes|
      invariant Gathered(v, runes, merges[..], pairs, i)
    {
      OneGathered(v, runes, merges[..], pairs, i);
      pairs := pairs + multiset(Candidate(v, merges[..], i, merges[i].n));
    }
    AllGathered(v, runes, merges[..], pairs);
  }

  /** The heap holds the candidates of the first n nodes of the initial list. */
  ghost predicate Gathered(v: Vocabulary, runes: Runes, ns: seq<Node>, pairs: multiset<Pair>, n: nat)
    requires IsInitial(runes, ns) && n <= |ns|
  {
    && (forall e | e in pairs :: Sound(v, runes, ns, e))
    && forall a | 0 <= a < n :: forall e | e in Candidate(v, ns, a, ns[a].n) :: e in pairs
  }

  lemma NoneGathered(v: Vocabulary, runes: Runes, ns: seq<Node>)
    requires IsInitial(runes, ns)
    ensures Gathered(v, runes, ns, multiset{}, 0)
  {
  }

  lemma OneGathered(v: Vocabulary, runes: Runes, ns: seq<Node>, pairs: multiset<Pair>, n: nat)
    requires IsInitial(runes, ns) && ListOk(ns, runes) && n < |ns| && Gathered(v, runes, ns, pairs, n)
    ensures Gathered(v, runes, ns, pairs + multiset(Candidate(v, ns, n, ns[n].n)), n + 1)
  {
    hide Candidate, Sound, ListOk;
    CandidateOk(v, runes, ns, n);
  }

  lemma AllGathered(v: Vocabulary, runes: Runes, ns: seq<Node>, pairs: multiset<Pair>)
    requires IsInitial(runes, ns) && Gathered(v, runes, ns, pairs, |ns|)
    ensures HeapOk(v, runes, ns, pairs)
  {
    hide Candidate, Sound;
  }

  ghost predicate IsInitial(runes: Runes, ns: seq<Node>) {
    |ns| == |runes| && forall i | 0 <= i < |ns| :: ns[i] == Node(i - 1, i + 1, [runes[i]])
  }

  lemma InitialOk(runes: Runes, ns: seq<Node>)
    requires IsInitial(runes, ns)
    ensures ListOk(ns, runes) && Parts(ns, 0, |ns|) == Singles(runes)
  {
    InitialParts(runes, ns, 0);
    assert Singles(runes)[0..] == Singles(runes);
  }

  lemma {:induction false} InitialParts(runes: Runes, ns: seq<Node>, lo: nat)
    requires IsInitial(runes, ns) && lo <= |ns|
    ensures Parts(ns, lo, |ns|) == Singles(runes)[lo..]
    decreases |ns| - lo
  {
    if lo < |ns| {
      InitialParts(runes, ns, lo + 1);
    }
  }

  lemma RunNothing(v: Vocabulary, parts: seq<Runes>)
    ensures Run(v, parts, [], parts)
  {
  }

  /** A stale pair may go: it is not a candidate of the list. */
  lemma StaleOk(v: Vocabulary, runes: Runes, ns: seq<Node>, pairs: multiset<Pair>, e: Pair)
    requires ListOk(ns, runes) && HeapOk(v, runes, ns, pairs) && e in pairs && !Current(ns, e)
    ensures HeapOk(v, runes, ns, pairs - multiset{e}) && |pairs - multiset{e}| < |pairs|
  {
    hide Sound, ListOk, Current;
    CurrentMeans(v, runes, ns, pairs, e);
    forall a | 0 <= a < |ns| && Live(ns[a]) && ns[a].n < |ns| && 0 <= ns[a].n
      ensures forall x | x in Candidate(v, ns, a, ns[a].n) :: x in pairs - multiset{e}
    {
      CandidateOk(v, runes, ns, a);
    }
  }

  /** One pass through the loop for a pair that speaks of the list as it is. */
  method MergeStep(v: Vocabulary, runes: Runes, merges: array<Node>, ghost pairs: multiset<Pair>, e: Pair)
    returns (ghost k: nat)
    requires ListOk(merges[..], runes) && HeapOk(v, runes, merges[..], pairs) && e in pairs
    requires e.a < merges.Length && e.b < merges.Length && Current(merges[..], e)
    requires forall x | x in pairs :: e.rank <= x.rank
    modifies merges
    ensures ListOk(merges[..], runes)
    ensures (merges[e.a].p < e.a) && e.a < merges[e.a].n
    ensures HeapOk(v, runes, merges[..], pairs - multiset{e}
      + multiset(Candidate(v, merges[..], merges[e.a].p, e.a)) + multiset(Candidate(v, merges[..], e.a, merges[e.a].n)))
    ensures Step(v, old(Parts(merges[..], 0, merges.Length)), k)
    ensures Parts(merges[..], 0, merges.Length) == Joined(old(Parts(merges[..], 0, merges.Length)), k)
  {
    hide ListOk, HeapOk, Step, Joined, Parts;
    ghost var ns := merges[..];
    k := |Parts(ns, 0, e.a)|;
    CurrentMeans(v, runes, ns, pairs, e);
    LeastIsStep(v, runes, ns, pairs, e);
    MergedParts(ns, runes, e.a);
    PoppedOk(v, runes, ns, pairs, e);
    MergedHeapOk(v, runes, ns, pairs - multiset{e}, e.a);
    MergedListOk(ns, runes, e.a);
    var left, right := merges[e.a], merges[e.b];
    NextInside(ns, runes, e.b);
    merges[e.a] := Node(left.p, right.n, left.runes + right.runes);
    merges[e.b] := Node(right.p, right.n, []);
    if right.n < merges.Length {
      merges[right.n] := Node(e.a, merges[right.n].n, merges[right.n].runes);
    }
    assert merges[..] == Merged(ns, e.a);
  }

  lemma NextInside(ns: seq<Node>, runes: Runes, b: nat)
    requires ListOk(ns, runes) && b < |ns| && Live(ns[b])
    ensures b < ns[b].n <= |ns|
  {
    assert Linked(ns, runes, b);
  }

  /** Without the pair taken out, the heap covers every candidate but that one. */
  lemma PoppedOk(v: Vocabulary, runes: Runes, ns: seq<Node>, pairs: multiset<Pair>, e: Pair)
    requires ListOk(ns, runes) && HeapOk(v, runes, ns, pairs) && e in pairs
    ensures forall x | x in pairs - multiset{e} :: Sound(v, runes, ns, x)
    ensures forall c | 0 <= c < |ns| && Live(ns[c]) && c != e.a && ns[c].n < |ns| && 0 <= ns[c].n ::
      forall x | x in Candidate(v, ns, c, ns[c].n) :: x in pairs - multiset{e}
  {
    forall c | 0 <= c < |ns| && Live(ns[c]) && c != e.a && ns[c].n < |ns| && 0 <= ns[c].n
      ensures forall x | x in Candidate(v, ns, c, ns[c].n) :: x in pairs - multiset{e}
    {
      CandidateOk(v, runes, ns, c);
    }
  }

  /** The stretches of the nodes that are left, in order. */
  method Collect(merges: array<Node>) returns (parts: seq<Runes>)
    ensures parts == Parts(merges[..], 0, merges.Length)
  {
    parts := [];
    for i := 0 to merges.Length
      invariant parts == Parts(merges[..], 0, i)
    {
      PartsSplit(merges[..], 0, i, i + 1);
      if merges[i].runes != [] {
        parts := parts + [merges[i].runes];
      }
    }
  }
}
