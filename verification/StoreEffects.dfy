/** What the operations on the store leave behind: which manifests and which blobs are
    gone afterwards, which are new, and that all others are as they were. */
module StoreEffects {
  import opened Helpers
  import opened StoreState
  import opened StoreSafety

  // --------------------------------------------------------------------- copying

  /** A manifest is copied whole, or is left broken, or not at all; nothing else
      changes. */
  lemma CopyMeans(s: State, src: ModelName, dst: ModelName, how: Writing)
    ensures var t := Copy(s, src, dst, how);
      && t.blobs == s.blobs
      && (forall n | n != dst :: n in t.manifests <==> n in s.manifests)
      && (forall n | n != dst && n in s.manifests :: t.manifests[n] == s.manifests[n])
    ensures var t := Copy(s, src, dst, how);
      if src == dst || src !in s.manifests || how.Refused? then t == s
      else dst in t.manifests && t.manifests[dst] == if how.Whole? then s.manifests[src] else Corrupt
  {
  }

  // -------------------------------------------------------------------- deleting

  /** The file is that of a listed digest which no manifest refers to any more. */
  ghost predicate Orphaned(roots: set<Digest>, ds: seq<Digest>, n: nat, f: FileName)
    requires n <= |ds|
  {
    exists i :: 0 <= i < n && Valid(ds[i]) && ds[i] !in roots && Dashed(ds[i]) == f
  }

  /** The removal of a layer fails. */
  ghost predicate Fails(s: State, d: Digest, stuck: set<FileName>) {
    d != "" && d !in Roots(s) && (!Valid(d) || (Dashed(d) in s.blobs && Dashed(d) in stuck))
  }

  lemma RemoveLayerMeans(s: State, d: Digest, stuck: set<FileName>)
    ensures var (t, ok) := RemoveLayer(s, d, stuck);
      && t.manifests == s.manifests
      && (ok <==> !Fails(s, d, stuck))
      && (forall f :: f in t.blobs <==> f in s.blobs && !(ok && Valid(d) && d !in Roots(s) && Dashed(d) == f))
      && (forall f | f in t.blobs :: t.blobs[f] == s.blobs[f])
  {
    hide Roots, Dashed;
    assert Valid(d) ==> d != "";
    hide Valid;
  }

  /** Of the listed layers the first ones are removed, up to the first one whose removal
      fails: the files of those that no manifest refers to are gone, no others. */
  lemma {:induction false} RemoveListedMeans(s: State, ds: seq<Digest>, n: nat, stuck: set<FileName>) returns (k: nat)
    requires n <= |ds|
    ensures k <= n
    ensures var (t, ok) := RemoveListed(s, ds, n, stuck);
      && t.manifests == s.manifests
      && (ok <==> k == n)
      && (forall f :: f in t.blobs <==> f in s.blobs && !Orphaned(Roots(s), ds, k, f))
      && (forall f | f in t.blobs :: t.blobs[f] == s.blobs[f])
      && (k < n ==> Fails(t, ds[k], stuck))
  {
    hide Roots, Dashed, Valid, RemoveLayer, Fails;
    if n == 0 {
      k := 0;
    } else {
      k := RemoveListedMeans(s, ds, n - 1, stuck);
      var (t, ok) := RemoveListed(s, ds, n - 1, stuck);
      if ok {
        SameRoots(s, t);
        RemoveLayerMeans(t, ds[n - 1], stuck);
        OneMoreOrphaned(Roots(s), ds, n - 1);
        if !Fails(t, ds[n - 1], stuck) {
          k := n;
        } else {
          assert RemoveLayer(t, ds[n - 1], stuck).0.blobs == t.blobs;
          assert RemoveLayer(t, ds[n - 1], stuck).0 == t;
        }
      }
    }
  }

  lemma SameRoots(s: State, t: State)
    requires t.manifests == s.manifests
    ensures Roots(t) == Roots(s)
  {
  }

  lemma OneMoreOrphaned(roots: set<Digest>, ds: seq<Digest>, n: nat)
    requires n < |ds|
    ensures forall f :: Orphaned(roots, ds, n + 1, f) <==>
      Orphaned(roots, ds, n, f) || (Valid(ds[n]) && ds[n] !in roots && Dashed(ds[n]) == f)
  {
    hide Valid, Dashed;
    forall f
      ensures Orphaned(roots, ds, n + 1, f) <==>
        Orphaned(roots, ds, n, f) || (Valid(ds[n]) && ds[n] !in roots && Dashed(ds[n]) == f)
    {
      if i :| 0 <= i < n + 1 && Valid(ds[i]) && ds[i] !in roots && Dashed(ds[i]) == f {
        if i < n {
          assert Orphaned(roots, ds, n, f);
        }
      }
    }
  }

  /** After a model has been deleted its manifest is gone and no other; of its layers
      the files are gone that no other manifest refers to, up to the first one, if any,
      that could not be removed. No other file is gone. */
  lemma DeleteMeans(s: State, name: ModelName, stuck: set<FileName>) returns (k: nat)
    requires name in s.manifests && s.manifests[name].Readable?
    ensures var ds, t := s.manifests[name].Listed(), Delete(s, name, stuck);
      && t.manifests == s.manifests - {name}
      && k <= |ds|
      && (forall f :: f in t.blobs <==> f in s.blobs && !Orphaned(Roots(t), ds, k, f))
      && (forall f | f in t.blobs :: t.blobs[f] == s.blobs[f])
      && (k < |ds| ==> Fails(t, ds[k], stuck))
  {
    hide Roots, Valid, Dashed, RemoveListed, Fails;
    var ds := s.manifests[name].Listed();
    var rest := s.(manifests := s.manifests - {name});
    k := RemoveListedMeans(rest, ds, |ds|, stuck);
    SameRoots(rest, Delete(s, name, stuck));
  }

  lemma DeleteRefused(s: State, name: ModelName, stuck: set<FileName>)
    requires name !in s.manifests || s.manifests[name].Corrupt?
    ensures Delete(s, name, stuck) == s
  {
  }

  // --------------------------------------------------------------------- pulling

  /** The file is that of a digest which only the manifest that was replaced referred to. */
  ghost predicate Superseded(s: State, t: State, name: ModelName, ds: seq<Digest>, f: FileName) {
    exists d ::
      && name in s.manifests && s.manifests[name].Readable? && d in s.manifests[name].Listed()
      && d !in ds && d !in Roots(t) && Valid(d) && Dashed(d) == f
  }

  /** A pull that goes through writes its manifest and no other; what it downloaded is
      there, and what was there still is, but, where it prunes, for the files that only
      the manifest it replaced referred to. */
  lemma PullMeans(s: State, q: Pulling, stuck: set<FileName>)
    requires q.incoming.Some? && q.incoming.value.Readable?
    requires Accepts(s, q.incoming.value.Listed(), q.answers, stuck)
    ensures var ds, t := q.incoming.value.Listed(), Pull(s, q, stuck);
      var blobs := Fetch(s, ds, |ds|, q.answers).blobs;
      && t.manifests == (match q.how
           case Whole => s.manifests[q.name := q.incoming.value]
           case Broken => s.manifests[q.name := Corrupt]
           case Refused => s.manifests)
      && (forall f :: f in t.blobs <==>
            f in blobs && !(q.how.Whole? && q.prune && f !in stuck && Superseded(s, t, q.name, ds, f)))
      && (forall f | f in t.blobs :: t.blobs[f] == blobs[f])
      && (forall f | f in s.blobs :: f in blobs && blobs[f] == s.blobs[f])
  {
    hide Fetch, Verify, Roots, Valid, Dashed;
    var ds := q.incoming.value.Listed();
    var r := Fetch(s, ds, |ds|, q.answers);
    FetchAdds(s, ds, |ds|, q.answers);
    VerifyRemoves(r.blobs, r.hits, ds, |ds|, stuck);
    var t := Pull(s, q, stuck);
    if q.how.Whole? && q.prune {
      var before := Write(s.(blobs := r.blobs), q.name, q.incoming.value, q.how);
      SameRoots(before, t);
      UnusedMeans(s, before, q.name, ds, stuck);
    }
  }

  lemma UnusedMeans(s: State, before: State, name: ModelName, ds: seq<Digest>, stuck: set<FileName>)
    ensures var t := DeleteUnused(before, OldDigests(s, name) - (set d | d in ds), stuck);
      && t.manifests == before.manifests
      && (forall f :: f in t.blobs <==> f in before.blobs && !(f !in stuck && Superseded(s, before, name, ds, f)))
      && (forall f | f in t.blobs :: t.blobs[f] == before.blobs[f])
  {
    hide Roots, Valid, Dashed;
  }

  /** A pull that does not go through leaves the manifests as they were, and loses no
      blob; a missing file is new at most. */
  lemma RefusedMeans(s: State, q: Pulling, stuck: set<FileName>)
    requires q.incoming.None? || q.incoming.value.Corrupt? ||
      !Accepts(s, q.incoming.value.Listed(), q.answers, stuck)
    ensures var t := Pull(s, q, stuck);
      && t.manifests == s.manifests
      && (forall f | f in s.blobs :: f in t.blobs && t.blobs[f] == s.blobs[f])
      && (forall f | f in t.blobs && f !in s.blobs ::
            q.incoming.Some? && q.incoming.value.Readable? &&
            exists i :: 0 <= i < |q.incoming.value.Listed()| && Dashed(q.incoming.value.Listed()[i]) == f)
  {
    hide Fetch, Verify, Valid, Dashed, DeleteUnused;
    if q.incoming.Some? && q.incoming.value.Readable? {
      var ds := q.incoming.value.Listed();
      var r := Fetch(s, ds, |ds|, q.answers);
      FetchAdds(s, ds, |ds|, q.answers);
      FetchedAreListed(s, ds, |ds|, q.answers);
      if r.ok {
        VerifyRemoves(r.blobs, r.hits, ds, |ds|, stuck);
      }
    }
  }

  lemma {:induction false} FetchedAreListed(s: State, ds: seq<Digest>, n: nat, answers: nat -> Option<Digest>)
    requires n <= |ds|
    ensures forall f | f in Fetch(s, ds, n, answers).blobs && f !in s.blobs ::
      exists i :: 0 <= i < |ds| && Dashed(ds[i]) == f
  {
    hide Valid, Dashed;
    if n != 0 {
      FetchedAreListed(s, ds, n - 1, answers);
    }
  }

  // --------------------------------------------------------------------- digests

  const HEX: string := "0123456789abcdefABCDEF"

  lemma HexMeans(c: char)
    ensures Hex(c) <==> c in HEX
  {
    if Hex(c) {
      var i := if c <= '9' then c as int - '0' as int
               else if c <= 'F' then c as int - 'A' as int + 16 else c as int - 'a' as int + 10;
      assert HEX[i] == c;
    }
  }

  /** A digest is "sha256", a colon or a dash, and 64 hexadecimal digits; its file has
      the dash. */
  lemma ValidMeans(d: Digest)
    ensures Valid(d) <==> exists hex ::
      |hex| == 64 && (forall i | 0 <= i < 64 :: hex[i] in HEX) && (d == "sha256:" + hex || d == "sha256-" + hex)
    ensures Valid(d) ==> Dashed(d) == "sha256-" + d[7..]
  {
    forall c: char
      ensures Hex(c) <==> c in HEX
    {
      HexMeans(c);
    }
    hide Hex;
    if Valid(d) {
      var hex := d[7..];
      assert d == d[..6] + [d[6]] + hex;
      assert forall i | 0 <= i < 64 :: hex[i] == d[7 + i];
      forall i | 0 <= i < 6
        ensures d[i] == "sha256"[i] != ':'
      {
        assert d[i] == d[..6][i];
      }
    }
    if hex :|
      |hex| == 64 && (forall i | 0 <= i < 64 :: hex[i] in HEX) && (d == "sha256:" + hex || d == "sha256-" + hex)
    {
      assert d[..6] == "sha256";
      assert forall i | 7 <= i < 71 :: d[i] == hex[i - 7];
    }
  }

  /** The digests that a manifest lists are its layers and its configuration, if any. */
  lemma ListedMeans(m: Manifest, d: Digest)
    requires m.Readable?
    ensures d in m.Listed() <==> d in m.layers || (d == m.config && d != "")
  {
  }
}
