/** Blobs that are needed stay, and after pruning only they do. */
module StoreSafety {
  import opened Helpers
  import opened StoreState

  lemma RootsSame(s: State, t: State)
    requires t.manifests == s.manifests
    ensures Roots(t) == Roots(s)
  {
  }

  lemma RootsWrite(s: State, name: ModelName, m: Manifest)
    ensures forall d | d in Roots(s.(manifests := s.manifests[name := m])) ::
      d in Roots(s) || (m.Readable? && d in m.Listed())
  {
    var t := s.(manifests := s.manifests[name := m]);
    forall d | d in Roots(t)
      ensures d in Roots(s) || (m.Readable? && d in m.Listed())
    {
      var n :| n in t.manifests && t.manifests[n].Readable? && d in t.manifests[n].Listed();
      if n != name {
        assert n in s.manifests && s.manifests[n] == t.manifests[n];
      }
    }
  }

  /** Removing the blobs of canonical digests that nobody refers to does no harm. */
  lemma DeleteUnusedIsSafe(s: State, unused: set<Digest>, stuck: set<FileName>)
    requires Safe(s) && forall k | k in unused && Valid(k) :: Canonical(k)
    ensures Safe(DeleteUnused(s, unused, stuck))
  {
    var t := DeleteUnused(s, unused, stuck);
    RootsSame(s, t);
    forall d | d in Roots(t)
      ensures Dashed(d) in t.blobs
    {
      DashedColoned(d);
      if Dashed(d) !in t.blobs {
        var k :| k in unused && k !in Roots(s) && Valid(k) && Dashed(k) == Dashed(d);
        DashedColoned(k);
      }
    }
  }

  lemma PruneIsSafe(s: State, stuck: set<FileName>)
    requires Safe(s)
    ensures Safe(Prune(s, stuck))
  {
    var valid := DigestsOf(s.blobs.Keys);
    var t := s.(blobs := s.blobs - (Misnamed(s.blobs.Keys) - stuck));
    RootsSame(s, t);
    forall d | d in Roots(t)
      ensures Dashed(d) in t.blobs
    {
      DashedColoned(d);
    }
    forall k | k in valid
      ensures Canonical(k)
    {
      var f :| f in s.blobs && Valid(Coloned(f)) && Coloned(f) == k;
      ColonedDashed(f);
      DashedColoned(k);
    }
    DeleteUnusedIsSafe(t, valid, stuck);
  }

  /** After pruning, the blobs that are left are exactly those that some readable
      manifest refers to, and those that could not be removed. */
  lemma PruneIsExact(s: State, stuck: set<FileName>, f: FileName)
    requires Safe(s)
    ensures f in Prune(s, stuck).blobs <==> f in s.blobs && (f in stuck || Coloned(f) in Roots(s))
    ensures f in s.blobs && Coloned(f) in Roots(s) <==> exists d :: d in Roots(s) && Dashed(d) == f
  {
    RootsSame(s, s.(blobs := s.blobs - (Misnamed(s.blobs.Keys) - stuck)));
    if f in s.blobs {
      ColonedDashed(f);
      if Valid(Coloned(f)) {
        var valid := DigestsOf(s.blobs.Keys);
        assert Coloned(f) in valid;
        forall k | k in valid && Dashed(k) == f
          ensures k == Coloned(f)
        {
          var g :| g in s.blobs && Valid(Coloned(g)) && Coloned(g) == k;
          ColonedDashed(g);
        }
      }
    }
    forall d | d in Roots(s) && Dashed(d) == f
      ensures Coloned(f) == d && f in s.blobs
    {
      DashedColoned(d);
    }
  }

  /** Without the condition that digests are canonical: pruning keeps what is needed
      exactly when, for every digest that is referred to, its canonical spelling is
      referred to as well, or its file is stuck. */
  lemma PruneKeepsIff(s: State, stuck: set<FileName>)
    requires Present(s) && forall f | f in s.blobs :: ':' !in f
    ensures Present(Prune(s, stuck)) <==>
      forall d | d in Roots(s) :: Coloned(Dashed(d)) in Roots(s) || Dashed(d) in stuck
  {
    var t := Prune(s, stuck);
    RootsSame(s, t);
    RootsSame(s, s.(blobs := s.blobs - (Misnamed(s.blobs.Keys) - stuck)));
    forall d | d in Roots(s)
      ensures Dashed(d) in t.blobs <==> Coloned(Dashed(d)) in Roots(s) || Dashed(d) in stuck
    {
      var f := Dashed(d);
      DashedColoned(d);
      ColonedDashed(f);
      var valid := DigestsOf(s.blobs.Keys);
      assert Coloned(f) in valid;
      forall k | k in valid && Dashed(k) == f
        ensures k == Coloned(f)
      {
        var g :| g in s.blobs && Valid(Coloned(g)) && Coloned(g) == k;
        ColonedDashed(g);
      }
    }
  }

  lemma RemoveLayerIsSafe(s: State, d: Digest, stuck: set<FileName>)
    requires Safe(s) && (Valid(d) ==> Canonical(d))
    ensures Safe(RemoveLayer(s, d, stuck).0)
  {
    var t := RemoveLayer(s, d, stuck).0;
    RootsSame(s, t);
    forall e | e in Roots(t)
      ensures Dashed(e) in t.blobs
    {
      DashedColoned(e);
      if Valid(d) {
        DashedColoned(d);
      }
    }
  }

  lemma {:induction false} RemoveListedIsSafe(s: State, ds: seq<Digest>, n: nat, stuck: set<FileName>)
    requires Safe(s) && n <= |ds| && forall i | 0 <= i < |ds| :: Valid(ds[i]) ==> Canonical(ds[i])
    ensures Safe(RemoveListed(s, ds, n, stuck).0)
  {
    hide Safe, RemoveLayer, Valid;
    if n != 0 {
      RemoveListedIsSafe(s, ds, n - 1, stuck);
      RemoveLayerIsSafe(RemoveListed(s, ds, n - 1, stuck).0, ds[n - 1], stuck);
    }
  }

  lemma DeleteIsSafe(s: State, name: ModelName, stuck: set<FileName>)
    requires Safe(s)
    ensures Safe(Delete(s, name, stuck))
  {
    if name in s.manifests && s.manifests[name].Readable? {
      var listed := s.manifests[name].Listed();
      var t := s.(manifests := s.manifests - {name});
      forall d | d in Roots(t)
        ensures d in Roots(s)
      {
        var n :| n in t.manifests && t.manifests[n].Readable? && d in t.manifests[n].Listed();
        assert n in s.manifests && s.manifests[n] == t.manifests[n];
      }
      forall i | 0 <= i < |listed|
        ensures Canonical(listed[i])
      {
        assert listed[i] in s.manifests[name].Listed();
        assert listed[i] in Roots(s);
      }
      RemoveListedIsSafe(t, listed, |listed|, stuck);
    }
  }

  lemma WriteIsSafe(s: State, name: ModelName, m: Manifest, how: Writing)
    requires Safe(s)
    requires m.Readable? && how.Whole? ==> forall d | d in m.Listed() :: Canonical(d) && Dashed(d) in s.blobs
    ensures Safe(Write(s, name, m, how))
  {
    RootsWrite(s, name, m);
    RootsWrite(s, name, Corrupt);
  }

  lemma CopyIsSafe(s: State, src: ModelName, dst: ModelName, how: Writing)
    requires Safe(s)
    ensures Safe(Copy(s, src, dst, how))
  {
    if src != dst && src in s.manifests {
      var m := s.manifests[src];
      if m.Readable? {
        forall d | d in m.Listed()
          ensures d in Roots(s)
        {
        }
      }
      WriteIsSafe(s, dst, m, how);
    }
  }

  // -------------------------------------------------------------------- pulling

  /** Downloading only adds blobs, and what it says was not there was not. */
  lemma {:induction false} FetchAdds(s: State, ds: seq<Digest>, n: nat, answers: nat -> Option<Digest>)
    requires n <= |ds|
    ensures var r := Fetch(s, ds, n, answers);
      && (forall f | f in s.blobs :: f in r.blobs && r.blobs[f] == s.blobs[f])
      && (forall d | d in r.hits && !r.hits[d] :: Dashed(d) !in s.blobs)
      && (r.ok ==> forall i | 0 <= i < n :: Valid(ds[i]) && Dashed(ds[i]) in r.blobs && ds[i] in r.hits)
      && ((forall f | f in s.blobs :: ':' !in f) ==> forall f | f in r.blobs :: ':' !in f)
  {
    hide Valid, Dashed;
    if n != 0 {
      FetchAdds(s, ds, n - 1, answers);
      if Valid(ds[n - 1]) {
        DashedColoned(ds[n - 1]);
      }
    }
  }

  /** Verifying removes at most one blob, which was not there before. */
  lemma {:induction false} VerifyRemoves(
      blobs: map<FileName, Digest>, hits: map<Digest, bool>, ds: seq<Digest>, n: nat, stuck: set<FileName>)
    requires n <= |ds| && forall i | 0 <= i < n :: ds[i] in hits
    ensures var (b, ok) := Verify(blobs, hits, ds, n, stuck);
      && (forall f | f in b :: f in blobs && b[f] == blobs[f])
      && (ok ==> b == blobs)
      && (forall f | f in blobs && f !in b :: exists d :: d in hits && !hits[d] && Dashed(d) == f)
  {
    hide Dashed;
    if n != 0 {
      VerifyRemoves(blobs, hits, ds, n - 1, stuck);
    }
  }

  /** What has been downloaded stays safe, verified or not. */
  lemma DownloadIsSafe(s: State, ds: seq<Digest>, answers: nat -> Option<Digest>, stuck: set<FileName>)
    requires Safe(s)
    ensures var r := Fetch(s, ds, |ds|, answers);
      && Safe(s.(blobs := r.blobs))
      && (r.ok ==> Safe(s.(blobs := Verify(r.blobs, r.hits, ds, |ds|, stuck).0)))
  {
    hide Fetch, Verify, Valid, Dashed;
    var r := Fetch(s, ds, |ds|, answers);
    FetchAdds(s, ds, |ds|, answers);
    RootsSame(s, s.(blobs := r.blobs));
    if r.ok {
      VerifyRemoves(r.blobs, r.hits, ds, |ds|, stuck);
      RootsSame(s, s.(blobs := Verify(r.blobs, r.hits, ds, |ds|, stuck).0));
    }
  }

  /** A pull keeps the store safe wherever it fails, if the digests it brings are canonical. */
  lemma PullIsSafe(s: State, q: Pulling, stuck: set<FileName>)
    requires Safe(s)
    requires q.incoming.Some? && q.incoming.value.Readable? ==>
      forall d | d in q.incoming.value.Listed() && Valid(d) :: Canonical(d)
    ensures Safe(Pull(s, q, stuck))
  {
    hide Fetch, Verify, Safe, Valid, Dashed, DeleteUnused, Write;
    if q.incoming.Some? && q.incoming.value.Readable? {
      var m := q.incoming.value;
      var ds := m.Listed();
      var r := Fetch(s, ds, |ds|, q.answers);
      DownloadIsSafe(s, ds, q.answers, stuck);
      FetchAdds(s, ds, |ds|, q.answers);
      if r.ok {
        VerifyRemoves(r.blobs, r.hits, ds, |ds|, stuck);
        var (blobs, ok) := Verify(r.blobs, r.hits, ds, |ds|, stuck);
        if ok {
          WriteIsSafe(s.(blobs := blobs), q.name, m, q.how);
          OldAreCanonical(s, q.name);
          DeleteUnusedIsSafe(Write(s.(blobs := blobs), q.name, m, q.how),
                             OldDigests(s, q.name) - (set d | d in ds), stuck);
        }
      }
    }
  }

  lemma OldAreCanonical(s: State, name: ModelName)
    requires Safe(s)
    ensures forall d | d in OldDigests(s, name) :: Canonical(d)
  {
    forall d | d in OldDigests(s, name)
      ensures d in Roots(s)
    {
    }
  }

  lemma {:induction false} VerifiedAt(
      blobs: map<FileName, Digest>, hits: map<Digest, bool>, ds: seq<Digest>, n: nat, stuck: set<FileName>, i: nat)
    requires i < n <= |ds| && Verify(blobs, hits, ds, n, stuck).1
    requires ds[i] in hits && !hits[ds[i]] && forall j | 0 <= j < n :: ds[j] in hits
    ensures Dashed(ds[i]) in blobs && blobs[Dashed(ds[i])] == ds[i]
  {
    hide Dashed;
    VerifyRemoves(blobs, hits, ds, n - 1, stuck);
    if i < n - 1 {
      VerifiedAt(blobs, hits, ds, n - 1, stuck, i);
    }
  }

  /** The layers are all downloaded, and none is found to be wrong. */
  predicate Accepts(s: State, ds: seq<Digest>, answers: nat -> Option<Digest>, stuck: set<FileName>) {
    var r := Fetch(s, ds, |ds|, answers);
    r.ok && Verify(r.blobs, r.hits, ds, |ds|, stuck).1
  }

  /** Entry i is the first to name its file, which was not in the store. */
  predicate Missing(s: State, ds: seq<Digest>, i: nat)
    requires i < |ds|
  {
    Dashed(ds[i]) !in s.blobs && forall j | 0 <= j < i :: Dashed(ds[j]) != Dashed(ds[i])
  }

  /** The digest of entry i is listed again further on. */
  ghost predicate Again(ds: seq<Digest>, i: nat)
    requires i < |ds|
  {
    exists k :: i < k < |ds| && ds[k] == ds[i]
  }

  /** What a file can be found to contain: digests are written in lower case. */
  predicate IsContent(d: Digest) {
    Canonical(d) && forall i | 7 <= i < |d| :: !('A' <= d[i] <= 'F')
  }

  ghost predicate AllContents(answers: nat -> Option<Digest>) {
    forall k | answers(k).Some? :: IsContent(answers(k).value)
  }

  /** Some missing file is named by one digest only, which no content has. */
  ghost predicate Unmatched(s: State, ds: seq<Digest>) {
    exists i :: 0 <= i < |ds| && Missing(s, ds, i) && !Again(ds, i) && !IsContent(ds[i])
  }

  /** No digest that is missing from the store is listed again after the entry that
      first names its file. */
  ghost predicate Once(s: State, ds: seq<Digest>) {
    forall i | 0 <= i < |ds| && Missing(s, ds, i) :: !Again(ds, i)
  }

  /** Every file that was downloaded has the content of a digest it is listed by. */
  ghost predicate Verified(s: State, ds: seq<Digest>, blobs: map<FileName, Digest>) {
    forall i | 0 <= i < |ds| && Dashed(ds[i]) !in s.blobs ::
      Dashed(ds[i]) in blobs && Matches(ds, Dashed(ds[i]), blobs[Dashed(ds[i])])
  }

  ghost predicate Matches(ds: seq<Digest>, f: FileName, content: Digest) {
    exists j :: 0 <= j < |ds| && Dashed(ds[j]) == f && content == ds[j]
  }

  lemma {:induction false} NotYetFetched(s: State, ds: seq<Digest>, n: nat, answers: nat -> Option<Digest>, f: FileName)
    requires n <= |ds| && f !in s.blobs && forall j | 0 <= j < n :: Dashed(ds[j]) != f
    ensures f !in Fetch(s, ds, n, answers).blobs
  {
    hide Valid, Dashed;
    if n != 0 {
      NotYetFetched(s, ds, n - 1, answers, f);
    }
  }

  /** A missing file keeps the first content that comes for it; verifying it is
      skipped exactly if its digest is listed again. */
  lemma {:induction false} FirstFetched(s: State, ds: seq<Digest>, n: nat, answers: nat -> Option<Digest>, i: nat)
    requires i < n <= |ds| && Missing(s, ds, i) && Fetch(s, ds, n, answers).ok
    ensures var r := Fetch(s, ds, n, answers);
      && Dashed(ds[i]) in r.blobs && Some(r.blobs[Dashed(ds[i])]) == answers(i)
      && ds[i] in r.hits && (r.hits[ds[i]] <==> exists k :: i < k < n && ds[k] == ds[i])
  {
    hide Valid, Dashed;
    if i < n - 1 {
      FirstFetched(s, ds, n - 1, answers, i);
      if ds[n - 1] != ds[i] && exists k :: i < k < n && ds[k] == ds[i] {
        var k :| i < k < n && ds[k] == ds[i];
        assert i < k < n - 1 && ds[k] == ds[i];
      }
    } else {
      NotYetFetched(s, ds, n - 1, answers, Dashed(ds[i]));
    }
  }

  lemma {:induction false} FirstNamed(s: State, ds: seq<Digest>, i: nat) returns (first: nat)
    requires i < |ds| && Dashed(ds[i]) !in s.blobs
    ensures first <= i && Dashed(ds[first]) == Dashed(ds[i]) && Missing(s, ds, first)
  {
    hide Dashed;
    if j :| 0 <= j < i && Dashed(ds[j]) == Dashed(ds[i]) {
      first := FirstNamed(s, ds, j);
    } else {
      first := i;
    }
  }

  // ---------------------------------------------------- when a pull goes through

  /** Entry i can pass: its digest is valid, and if it is missing some content comes
      for it, which is the right one unless the digest is listed again. */
  ghost predicate Passes(s: State, ds: seq<Digest>, answers: nat -> Option<Digest>, i: nat)
    requires i < |ds|
  {
    Valid(ds[i]) && (Missing(s, ds, i) ==> answers(i).Some? && (answers(i).value == ds[i] || Again(ds, i)))
  }

  /** The first n entries went through, and only those that are listed again could be
      found to be wrong. */
  ghost predicate Answered(s: State, r: Fetched, ds: seq<Digest>, n: nat)
    requires n <= |ds|
  {
    r.ok && forall k | 0 <= k < n ::
      && ds[k] in r.hits && Dashed(ds[k]) in r.blobs
      && (r.hits[ds[k]] || r.blobs[Dashed(ds[k])] == ds[k] || Repeated(s, ds, ds[k]))
  }

  /** The digest is that of a missing entry, and listed again. */
  ghost predicate Repeated(s: State, ds: seq<Digest>, d: Digest) {
    exists i :: 0 <= i < |ds| && Missing(s, ds, i) && Again(ds, i) && ds[i] == d
  }

  lemma {:induction false} AnsweredOk(s: State, ds: seq<Digest>, n: nat, answers: nat -> Option<Digest>)
    requires n <= |ds| && forall k | 0 <= k < |ds| :: Passes(s, ds, answers, k)
    ensures Answered(s, Fetch(s, ds, n, answers), ds, n)
  {
    hide Valid, Dashed, Missing, Again, Answered, Repeated;
    if n == 0 {
      NoneAnswered(s, ds, answers);
    } else {
      AnsweredOk(s, ds, n - 1, answers);
      var r := Fetch(s, ds, n - 1, answers);
      FetchAdds(s, ds, n - 1, answers);
      assert Passes(s, ds, answers, n - 1);
      if Dashed(ds[n - 1]) in r.blobs {
        FoundAnswered(s, r, ds, n);
      } else {
        NewIsMissing(s, r, ds, n);
        NewAnswered(s, r, ds, n, answers(n - 1).value);
      }
    }
  }

  lemma NoneAnswered(s: State, ds: seq<Digest>, answers: nat -> Option<Digest>)
    ensures Answered(s, Fetch(s, ds, 0, answers), ds, 0)
  {
  }

  lemma NewIsMissing(s: State, r: Fetched, ds: seq<Digest>, n: nat)
    requires 0 < n <= |ds| && Answered(s, r, ds, n - 1) && Dashed(ds[n - 1]) !in r.blobs
    requires forall f | f in s.blobs :: f in r.blobs
    ensures r.ok && Missing(s, ds, n - 1)
  {
    hide Dashed, Repeated;
  }

  lemma FoundAnswered(s: State, r: Fetched, ds: seq<Digest>, n: nat)
    requires 0 < n <= |ds| && Answered(s, r, ds, n - 1) && Dashed(ds[n - 1]) in r.blobs
    ensures r.ok && Answered(s, r.(hits := r.hits[ds[n - 1] := true]), ds, n)
  {
    hide Dashed, Repeated;
  }

  lemma NewAnswered(s: State, r: Fetched, ds: seq<Digest>, n: nat, answer: Digest)
    requires 0 < n <= |ds| && Answered(s, r, ds, n - 1) && Dashed(ds[n - 1]) !in r.blobs
    requires Missing(s, ds, n - 1) && (answer == ds[n - 1] || Again(ds, n - 1))
    ensures r.ok
    ensures Answered(s, Fetched(r.blobs[Dashed(ds[n - 1]) := answer], r.hits[ds[n - 1] := false], true), ds, n)
  {
    hide Dashed, Missing, Again;
    assert answer != ds[n - 1] ==> Repeated(s, ds, ds[n - 1]);
  }

  lemma {:induction false} VerifyPasses(
    blobs: map<FileName, Digest>, hits: map<Digest, bool>, ds: seq<Digest>, n: nat, stuck: set<FileName>)
    requires n <= |ds|
    requires forall k | 0 <= k < n ::
      ds[k] in hits && (hits[ds[k]] || (Dashed(ds[k]) in blobs && blobs[Dashed(ds[k])] == ds[k]))
    ensures Verify(blobs, hits, ds, n, stuck) == (blobs, true)
  {
    hide Dashed;
    if n != 0 {
      VerifyPasses(blobs, hits, ds, n - 1, stuck);
    }
  }

  lemma PassingIsAccepted(s: State, ds: seq<Digest>, answers: nat -> Option<Digest>, stuck: set<FileName>)
    requires forall k | 0 <= k < |ds| :: Passes(s, ds, answers, k)
    ensures Accepts(s, ds, answers, stuck)
  {
    hide Valid, Dashed, Fetch, Verify, Missing, Passes;
    AnsweredOk(s, ds, |ds|, answers);
    var r := Fetch(s, ds, |ds|, answers);
    forall k | 0 <= k < |ds| && Repeated(s, ds, ds[k])
      ensures ds[k] in r.hits && r.hits[ds[k]]
    {
      var i: nat :| i < |ds| && Missing(s, ds, i) && Again(ds, i) && ds[i] == ds[k];
      FirstFetched(s, ds, |ds|, answers, i);
    }
    hide Repeated, Again;
    VerifyPasses(r.blobs, r.hits, ds, |ds|, stuck);
  }

  /** A missing entry of an accepted list, with what has come for it. */
  lemma AcceptedAt(s: State, ds: seq<Digest>, answers: nat -> Option<Digest>, stuck: set<FileName>, i: nat)
    requires i < |ds| && Accepts(s, ds, answers, stuck)
    ensures Passes(s, ds, answers, i)
    ensures Missing(s, ds, i) ==>
      var blobs := Fetch(s, ds, |ds|, answers).blobs;
      Dashed(ds[i]) in blobs && Some(blobs[Dashed(ds[i])]) == answers(i)
  {
    hide Valid, Dashed, Fetch, Verify, Missing;
    var r := Fetch(s, ds, |ds|, answers);
    FetchAdds(s, ds, |ds|, answers);
    if Missing(s, ds, i) {
      FirstFetched(s, ds, |ds|, answers, i);
      if !Again(ds, i) {
        VerifiedAt(r.blobs, r.hits, ds, |ds|, stuck, i);
      }
    }
  }

  /** A pull goes through exactly when every digest is valid and for every missing
      file some content comes, the right one unless the digest is listed again. */
  lemma AcceptsIff(s: State, ds: seq<Digest>, answers: nat -> Option<Digest>, stuck: set<FileName>)
    ensures Accepts(s, ds, answers, stuck) <==> forall i | 0 <= i < |ds| :: Passes(s, ds, answers, i)
  {
    hide Accepts, Passes;
    if Accepts(s, ds, answers, stuck) {
      forall i | 0 <= i < |ds|
        ensures Passes(s, ds, answers, i)
      {
        AcceptedAt(s, ds, answers, stuck, i);
      }
    } else if forall i | 0 <= i < |ds| :: Passes(s, ds, answers, i) {
      PassingIsAccepted(s, ds, answers, stuck);
    }
  }

  // ------------------------------------------------------- what has been verified

  lemma OnceIsVerified(s: State, ds: seq<Digest>, answers: nat -> Option<Digest>, stuck: set<FileName>)
    requires Once(s, ds) && Accepts(s, ds, answers, stuck)
    ensures Verified(s, ds, Fetch(s, ds, |ds|, answers).blobs)
  {
    hide Valid, Dashed, Fetch, Accepts, Missing, Again;
    var blobs := Fetch(s, ds, |ds|, answers).blobs;
    forall i | 0 <= i < |ds| && Dashed(ds[i]) !in s.blobs
      ensures Dashed(ds[i]) in blobs && Matches(ds, Dashed(ds[i]), blobs[Dashed(ds[i])])
    {
      var first := FirstNamed(s, ds, i);
      AcceptedAt(s, ds, answers, stuck, first);
    }
  }

  const ZEROS: Digest := "sha256:" + seq(64, i => '0')

  const ONES: Digest := "sha256:" + seq(64, i => '1')

  /** There is always a content that does not belong in a file. */
  lemma OtherContent(f: FileName) returns (bad: Digest)
    ensures IsContent(bad) && Dashed(bad) != f
  {
    assert Dashed(ZEROS)[7] == '0' && Dashed(ONES)[7] == '1';
    bad := if Dashed(ZEROS) == f then ONES else ZEROS;
  }

  /** If a missing digest is listed again, and no list entry is hopeless, there are
      contents with which the wrong one is accepted for it. */
  lemma TwiceIsAccepted(s: State, ds: seq<Digest>, i: nat, stuck: set<FileName>)
    returns (answers: nat -> Option<Digest>)
    requires i < |ds| && Missing(s, ds, i) && Again(ds, i)
    requires !Unmatched(s, ds) && forall k | 0 <= k < |ds| :: Valid(ds[k])
    ensures AllContents(answers) && Accepts(s, ds, answers, stuck)
    ensures !Verified(s, ds, Fetch(s, ds, |ds|, answers).blobs)
  {
    hide Valid, Dashed, Fetch, Accepts, Missing, Again, IsContent;
    var bad := OtherContent(Dashed(ds[i]));
    answers := (j: nat) => Some(if j != i && j < |ds| && IsContent(ds[j]) then ds[j] else bad);
    forall k | 0 <= k < |ds|
      ensures Passes(s, ds, answers, k)
    {
    }
    AcceptsIff(s, ds, answers, stuck);
    AcceptedAt(s, ds, answers, stuck, i);
    Unverified(s, ds, i, Fetch(s, ds, |ds|, answers).blobs);
  }

  lemma Unverified(s: State, ds: seq<Digest>, i: nat, blobs: map<FileName, Digest>)
    requires i < |ds| && Missing(s, ds, i) && Dashed(ds[i]) in blobs
    requires Dashed(blobs[Dashed(ds[i])]) != Dashed(ds[i])
    ensures !Verified(s, ds, blobs)
  {
    hide Dashed;
  }

  /** Nothing that a file can contain goes through for a digest that no content has. */
  lemma UnmatchedIsRefused(s: State, ds: seq<Digest>, answers: nat -> Option<Digest>, stuck: set<FileName>)
    requires Unmatched(s, ds) && AllContents(answers)
    ensures !Accepts(s, ds, answers, stuck)
  {
    hide Valid, Dashed, Accepts, Missing, Again, IsContent;
    if Accepts(s, ds, answers, stuck) {
      var i: nat :| i < |ds| && Missing(s, ds, i) && !Again(ds, i) && !IsContent(ds[i]);
      AcceptedAt(s, ds, answers, stuck, i);
    }
  }

  lemma InvalidIsRefused(s: State, ds: seq<Digest>, answers: nat -> Option<Digest>, stuck: set<FileName>, i: nat)
    requires i < |ds| && !Valid(ds[i])
    ensures !Accepts(s, ds, answers, stuck)
  {
    hide Valid, Dashed;
    FetchAdds(s, ds, |ds|, answers);
  }

  /** Whatever files the registry sends: what is fetched by an accepted list has been
      verified. */
  ghost predicate AlwaysVerified(s: State, ds: seq<Digest>, stuck: set<FileName>) {
    forall answers | AllContents(answers) && Accepts(s, ds, answers, stuck) ::
      Verified(s, ds, Fetch(s, ds, |ds|, answers).blobs)
  }

  lemma FetchedIsVerifiedIff(s: State, ds: seq<Digest>, stuck: set<FileName>)
    ensures AlwaysVerified(s, ds, stuck)
       <==> Once(s, ds) || Unmatched(s, ds) || exists i :: 0 <= i < |ds| && !Valid(ds[i])
  {
    hide Valid, Dashed, Fetch, Missing, Again, Accepts, Verified, Unmatched, AllContents;
    if Once(s, ds) {
      forall answers | AllContents(answers) && Accepts(s, ds, answers, stuck)
        ensures Verified(s, ds, Fetch(s, ds, |ds|, answers).blobs)
      {
        OnceIsVerified(s, ds, answers, stuck);
      }
    } else if Unmatched(s, ds) {
      forall answers | AllContents(answers)
        ensures !Accepts(s, ds, answers, stuck)
      {
        UnmatchedIsRefused(s, ds, answers, stuck);
      }
    } else if i :| 0 <= i < |ds| && !Valid(ds[i]) {
      forall answers
        ensures !Accepts(s, ds, answers, stuck)
      {
        InvalidIsRefused(s, ds, answers, stuck, i);
      }
    } else {
      var i: nat :| i < |ds| && Missing(s, ds, i) && Again(ds, i);
      var answers := TwiceIsAccepted(s, ds, i, stuck);
    }
  }

  // ------------------------------------------------------------- the whole pull

  /** A pull that does not go through writes no manifest. */
  lemma RefusedWritesNothing(s: State, q: Pulling, stuck: set<FileName>)
    requires q.incoming.Some? && q.incoming.value.Readable? && !Accepts(s, q.incoming.value.Listed(), q.answers, stuck)
    ensures Pull(s, q, stuck).manifests == s.manifests
  {
  }

  /** What a pull that goes through has downloaded is still there when it ends. */
  lemma PullKeepsFetched(s: State, q: Pulling, stuck: set<FileName>, f: FileName)
    requires Present(s) && q.incoming.Some? && q.incoming.value.Readable? && f !in s.blobs
    requires Accepts(s, q.incoming.value.Listed(), q.answers, stuck)
    ensures var ds := q.incoming.value.Listed();
      var blobs, blobs' := Fetch(s, ds, |ds|, q.answers).blobs, Pull(s, q, stuck).blobs;
      (f in blobs' <==> f in blobs) && (f in blobs ==> blobs'[f] == blobs[f])
  {
    hide Fetch, Verify, Valid, Dashed, Present, Roots;
    var ds := q.incoming.value.Listed();
    var r := Fetch(s, ds, |ds|, q.answers);
    FetchAdds(s, ds, |ds|, q.answers);
    VerifyRemoves(r.blobs, r.hits, ds, |ds|, stuck);
    OldArePresent(s, q.name);
  }

  lemma OldArePresent(s: State, name: ModelName)
    requires Present(s)
    ensures forall d | d in OldDigests(s, name) :: Dashed(d) in s.blobs
  {
    hide Dashed;
    forall d | d in OldDigests(s, name)
      ensures d in Roots(s)
    {
    }
  }

  /** A pull verifies all that it downloads, whatever files the registry sends for a
      manifest, exactly when no missing digest is listed again after the entry that
      first names its file, or else nothing goes through: some digest is invalid, or
      some missing file is named by one digest only, which no content has. */
  lemma PulledIsVerifiedIff(s: State, name: ModelName, m: Manifest, how: Writing, prune: bool, stuck: set<FileName>)
    requires Present(s) && m.Readable?
    ensures var ds := m.Listed();
      (forall answers | AllContents(answers) && Accepts(s, ds, answers, stuck) ::
         Verified(s, ds, Pull(s, Pulling(name, Some(m), answers, how, prune), stuck).blobs))
      <==> Once(s, ds) || Unmatched(s, ds) || exists i :: 0 <= i < |ds| && !Valid(ds[i])
  {
    hide Valid, Fetch, Accepts, Verified, Pull, Once, Unmatched, AllContents, Present;
    var ds := m.Listed();
    FetchedIsVerifiedIff(s, ds, stuck);
    forall answers | Accepts(s, ds, answers, stuck)
      ensures Verified(s, ds, Pull(s, Pulling(name, Some(m), answers, how, prune), stuck).blobs)
         <==> Verified(s, ds, Fetch(s, ds, |ds|, answers).blobs)
    {
      SameVerified(s, Pulling(name, Some(m), answers, how, prune), stuck);
    }
  }

  lemma SameVerified(s: State, q: Pulling, stuck: set<FileName>)
    requires Present(s) && q.incoming.Some? && q.incoming.value.Readable?
    requires Accepts(s, q.incoming.value.Listed(), q.answers, stuck)
    ensures var ds := q.incoming.value.Listed();
      Verified(s, ds, Pull(s, q, stuck).blobs) <==> Verified(s, ds, Fetch(s, ds, |ds|, q.answers).blobs)
  {
    hide Fetch, Accepts, Pull, Present, Dashed, Matches;
    var ds := q.incoming.value.Listed();
    forall f | f !in s.blobs
      ensures var blobs, blobs' := Fetch(s, ds, |ds|, q.answers).blobs, Pull(s, q, stuck).blobs;
        (f in blobs' <==> f in blobs) && (f in blobs ==> blobs'[f] == blobs[f])
    {
      PullKeepsFetched(s, q, stuck, f);
    }
  }

  /** A pull of a manifest that lists a layer twice keeps, under the name of its
      digest, whatever the registry sends. */
  lemma WrongContentIsKept(s: State, q: Pulling, d: Digest, bad: Digest, stuck: set<FileName>)
    requires Present(s) && Valid(d) && Dashed(d) !in s.blobs
    requires q.incoming == Some(Readable([d, d], "")) && q.how.Whole?
    requires q.answers(0) == Some(bad)
    ensures var t := Pull(s, q, stuck);
      && q.name in t.manifests && t.manifests[q.name] == q.incoming.value
      && Dashed(d) in t.blobs && t.blobs[Dashed(d)] == bad
  {
    hide Dashed, Fetch, Verify, Present, Valid;
    var ds := q.incoming.value.Listed();
    assert ds == [d, d];
    assert ds[1] == ds[0];
    AcceptsIff(s, ds, q.answers, stuck);
    AcceptedAt(s, ds, q.answers, stuck, 0);
    PullKeepsFetched(s, q, stuck, Dashed(d));
  }

  // ----------------------------------------------------------------------- runs

  datatype Op =
    | DoPull(q: Pulling)
    | DoCopy(src: ModelName, dst: ModelName, how: Writing)
    | DoDelete(name: ModelName)
    | DoPrune

  function Do(s: State, op: Op, stuck: set<FileName>): State {
    match op
    case DoPull(q) => Pull(s, q, stuck)
    case DoCopy(src, dst, how) => Copy(s, src, dst, how)
    case DoDelete(name) => Delete(s, name, stuck)
    case DoPrune => Prune(s, stuck)
  }

  predicate BringsCanonical(op: Op) {
    op.DoPull? && op.q.incoming.Some? && op.q.incoming.value.Readable? ==>
      forall d | d in op.q.incoming.value.Listed() && Valid(d) :: Canonical(d)
  }

  function DoAll(s: State, ops: seq<Op>, n: nat, stuck: set<FileName>): State
    requires n <= |ops|
  {
    if n == 0 then s else Do(DoAll(s, ops, n - 1, stuck), ops[n - 1], stuck)
  }

  /** Any sequence of pulls, wherever they fail, copies, deletions and prunings keeps
      every blob that a readable manifest refers to. */
  lemma {:induction false} RunsAreSafe(s: State, ops: seq<Op>, n: nat, stuck: set<FileName>)
    requires Safe(s) && n <= |ops| && forall i | 0 <= i < |ops| :: BringsCanonical(ops[i])
    ensures Safe(DoAll(s, ops, n, stuck))
  {
    hide Safe, Pull, Copy, Delete, Prune;
    if n != 0 {
      RunsAreSafe(s, ops, n - 1, stuck);
      var t := DoAll(s, ops, n - 1, stuck);
      match ops[n - 1] {
        case DoPull(q) => PullIsSafe(t, q, stuck);
        case DoCopy(src, dst, how) => CopyIsSafe(t, src, dst, how);
        case DoDelete(name) => DeleteIsSafe(t, name, stuck);
        case DoPrune => PruneIsSafe(t, stuck);
      }
    }
  }
}
