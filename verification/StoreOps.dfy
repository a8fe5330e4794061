/** The operations on the store, step by step. */
module StoreOps {
  import opened Helpers
  import opened StoreState

  class Store {
    var manifests: map<ModelName, Manifest>
    var blobs: map<FileName, Digest>
    const stuck: set<FileName>

    constructor (manifests: map<ModelName, Manifest>, blobs: map<FileName, Digest>, stuck: set<FileName>)
      ensures Contents() == State(manifests, blobs) && this.stuck == stuck
    {
      this.manifests, this.blobs, this.stuck := manifests, blobs, stuck;
    }

    ghost function Contents(): State
      reads this
    {
      State(manifests, blobs)
    }

    /** Removes a file, unless it is not there or stuck. */
    method RemoveFile(f: FileName) returns (ok: bool)
      modifies this`blobs
      ensures blobs == old(blobs) - ({f} - stuck)
      ensures ok <==> f in old(blobs) && f !in stuck
    {
      ok := f in blobs && f !in stuck;
      if ok {
        blobs := blobs - {f};
      }
    }

    /** Takes every digest that is still referred to out of the map; then removes the
        blobs of those that are left. */
    method DeleteUnusedLayers(deleteMap: set<Digest>)
      modifies this`blobs
      ensures Contents() == DeleteUnused(old(Contents()), deleteMap, stuck)
    {
      hide RootsAmong, FilesOf;
      var unused, names := deleteMap, manifests.Keys;
      NoRoots(manifests);
      assert manifests.Keys - manifests.Keys == {};
      while names != {}
        invariant names <= manifests.Keys && blobs == old(blobs)
        invariant Left(unused, deleteMap, RootsAmong(manifests, manifests.Keys - names))
        decreases |names|
      {
        SomeElement(names);
        var n :| n in names;
        ghost var before := unused;
        unused := Spare(unused, manifests[n]);
        MoreRoots(manifests, manifests.Keys - names, n);
        LeftLess(before, unused, deleteMap, RootsAmong(manifests, manifests.Keys - names), Spared(manifests[n]));
        assert manifests.Keys - (names - {n}) == manifests.Keys - names + {n};
        names := names - {n};
      }
      assert manifests.Keys - {} == manifests.Keys;
      SameFiles(unused, deleteMap, Roots(Contents()));
      RemoveBlobs(unused);
    }

    /** The digests of a manifest are not to be deleted, and neither is what stands
        for a configuration that is missing. */
    method Spare(deleteMap: set<Digest>, m: Manifest) returns (unused: set<Digest>)
      ensures Left(unused, deleteMap, Spared(m))
    {
      unused := deleteMap;
      if m.Readable? {
        for i := 0 to |m.layers|
          invariant unused == deleteMap - set d | d in m.layers[..i]
        {
          assert m.layers[..i + 1] == m.layers[..i] + [m.layers[i]];
          unused := unused - {m.layers[i]};
        }
        assert m.layers[..|m.layers|] == m.layers;
        unused := unused - {m.config};
      }
    }

    method RemoveBlobs(unused: set<Digest>)
      modifies this`blobs
      ensures blobs == old(blobs) - (FilesOf(unused) - stuck)
    {
      var todo := unused;
      while todo != {}
        invariant todo <= unused
        invariant blobs == old(blobs) - (FilesOf(unused - todo) - stuck)
        decreases |todo|
      {
        SomeElement(todo);
        var k :| k in todo;
        if Valid(k) {
          var ok := RemoveFile(Dashed(k));
        }
        assert unused - (todo - {k}) == unused - todo + {k};
        todo := todo - {k};
      }
    }

    /** Blobs under invalid names go at once, the others if nobody needs them. */
    method PruneLayers()
      modifies this`blobs
      ensures Contents() == Prune(old(Contents()), stuck)
    {
      hide DeleteUnused, DigestsOf, Misnamed;
      NoFiles();
      var deleteMap: set<Digest>, files := {}, blobs.Keys;
      assert old(blobs).Keys - files == {};
      while files != {}
        invariant files <= old(blobs).Keys
        invariant deleteMap == DigestsOf(old(blobs).Keys - files)
        invariant blobs == old(blobs) - (Misnamed(old(blobs).Keys - files) - stuck)
        decreases |files|
      {
        SomeElement(files);
        var f :| f in files;
        var candidate := SortOut(f);
        deleteMap := deleteMap + candidate;
        MoreFiles(old(blobs).Keys - files, f);
        RemovedMore(old(blobs), Misnamed(old(blobs).Keys - files), Misnamed({f}), stuck);
        assert old(blobs).Keys - (files - {f}) == old(blobs).Keys - files + {f};
        files := files - {f};
      }
      assert old(blobs).Keys - {} == old(blobs).Keys;
      DeleteUnusedLayers(deleteMap);
    }

    /** Removes a file under an invalid name; a digest is a candidate for deletion. */
    method SortOut(f: FileName) returns (candidate: set<Digest>)
      modifies this`blobs
      ensures candidate == DigestsOf({f}) && blobs == old(blobs) - (Misnamed({f}) - stuck)
    {
      if Valid(Coloned(f)) {
        candidate := {Coloned(f)};
      } else {
        candidate := {};
        var ok := RemoveFile(f);
      }
    }

    /** Whether some readable manifest refers to a digest. */
    method IsUsed(d: Digest) returns (used: bool)
      requires d != ""
      ensures used <==> d in Roots(Contents())
    {
      var names := manifests.Keys;
      while names != {}
        invariant names <= manifests.Keys
        invariant forall n | n in manifests && n !in names && manifests[n].Readable? :: d !in manifests[n].Listed()
        decreases |names|
      {
        SomeElement(names);
        var n :| n in names;
        if manifests[n].Readable? && (d in manifests[n].layers || d == manifests[n].config) {
          assert d == manifests[n].config ==> manifests[n].Listed()[|manifests[n].layers|] == d;
          assert d in manifests[n].Listed();
          return true;
        }
        names := names - {n};
      }
      return false;
    }

    method RemoveLayerFile(d: Digest) returns (ok: bool)
      modifies this`blobs
      ensures (Contents(), ok) == RemoveLayer(old(Contents()), d, stuck)
    {
      if d == "" {
        return true;
      }
      var used := IsUsed(d);
      if used {
        return true;
      }
      if !Valid(d) {
        return false;
      }
      if Dashed(d) !in blobs {
        return true;
      }
      ok := RemoveFile(Dashed(d));
      assert Dashed(d) in stuck ==> blobs == old(blobs);
      assert Dashed(d) !in stuck ==> {Dashed(d)} - stuck == {Dashed(d)};
    }

    method DeleteModel(name: ModelName)
      modifies this
      ensures Contents() == Delete(old(Contents()), name, stuck)
    {
      if name !in manifests || manifests[name].Corrupt? {
        return;
      }
      var listed := manifests[name].Listed();
      manifests := manifests - {name};
      ghost var s := Contents();
      var ok := true;
      for i := 0 to |listed|
        invariant manifests == s.manifests && ok
        invariant (Contents(), ok) == RemoveListed(s, listed, i, stuck)
      {
        ok := RemoveLayerFile(listed[i]);
        if !ok {
          ListedFail(s, listed, i + 1, |listed|, stuck);
          return;
        }
      }
    }

    method WriteManifest(name: ModelName, m: Manifest, how: Writing)
      modifies this`manifests
      ensures Contents() == Write(old(Contents()), name, m, how)
    {
      match how {
        case Whole => manifests := manifests[name := m];
        case Broken => manifests := manifests[name := Corrupt];
        case Refused =>
      }
    }

    method CopyModel(src: ModelName, dst: ModelName, how: Writing)
      modifies this`manifests
      ensures Contents() == Copy(old(Contents()), src, dst, how)
    {
      if src == dst || src !in manifests {
        return;
      }
      WriteManifest(dst, manifests[src], how);
    }

    /** Downloads the layers that are missing. */
    method Download(ds: seq<Digest>, answers: nat -> Option<Digest>) returns (hits: map<Digest, bool>, ok: bool)
      modifies this`blobs
      ensures Fetch(old(Contents()), ds, |ds|, answers).ok == ok
      ensures Fetch(old(Contents()), ds, |ds|, answers).blobs == blobs
      ensures ok ==> Fetch(old(Contents()), ds, |ds|, answers).hits == hits
    {
      hits, ok := map[], true;
      for i := 0 to |ds|
        invariant ok && Fetch(old(Contents()), ds, i, answers) == Fetched(blobs, hits, true)
      {
        var d := ds[i];
        if !Valid(d) {
          FetchFails(old(Contents()), ds, i + 1, |ds|, answers);
          return hits, false;
        }
        if Dashed(d) in blobs {
          hits := hits[d := true];
        } else {
          var answer := answers(i);
          if answer.None? {
            FetchFails(old(Contents()), ds, i + 1, |ds|, answers);
            return hits, false;
          }
          blobs := blobs[Dashed(d) := answer.value];
          hits := hits[d := false];
        }
      }
    }

    /** Verifies what has been downloaded; what does not match is removed. */
    method VerifyAll(ds: seq<Digest>, hits: map<Digest, bool>) returns (ok: bool)
      modifies this`blobs
      ensures (blobs, ok) == Verify(old(blobs), hits, ds, |ds|, stuck)
    {
      for i := 0 to |ds|
        invariant (blobs, true) == Verify(old(blobs), hits, ds, i, stuck)
      {
        var d := ds[i];
        if d in hits && hits[d] {
          continue;
        }
        if Dashed(d) !in blobs || blobs[Dashed(d)] != d {
          if Dashed(d) in blobs {
            var removed := RemoveFile(Dashed(d));
          }
          VerifyFails(old(blobs), hits, ds, i + 1, |ds|, stuck);
          return false;
        }
      }
      return true;
    }

    method PullModel(q: Pulling)
      modifies this
      ensures Contents() == Pull(old(Contents()), q, stuck)
    {
      hide Fetch, Verify, DeleteUnused;
      var deleteMap := if q.name in manifests && manifests[q.name].Readable?
        then set d | d in manifests[q.name].Listed() else {};
      if q.incoming.None? || q.incoming.value.Corrupt? {
        return;
      }
      var ds := q.incoming.value.Listed();
      var hits, ok := Download(ds, q.answers);
      if !ok {
        return;
      }
      var remaining := deleteMap;
      for i := 0 to |ds|
        invariant remaining == deleteMap - set d | d in ds[..i]
      {
        assert ds[..i + 1] == ds[..i] + [ds[i]];
        remaining := remaining - {ds[i]};
      }
      assert ds[..|ds|] == ds;
      ok := VerifyAll(ds, hits);
      if !ok {
        return;
      }
      WriteManifest(q.name, q.incoming.value, q.how);
      if q.how.Whole? && q.prune {
        DeleteUnusedLayers(remaining);
      }
    }
  }

  /** The digests of a manifest, if it can be read. */
  function Spared(m: Manifest): set<Digest> {
    if m.Readable? then set d | d in m.Listed() else {}
  }

  lemma NoRoots(manifests: map<ModelName, Manifest>)
    ensures RootsAmong(manifests, {}) == {}
  {
  }

  lemma MoreRoots(manifests: map<ModelName, Manifest>, names: set<ModelName>, n: ModelName)
    requires n in manifests
    ensures RootsAmong(manifests, names + {n}) == RootsAmong(manifests, names) + Spared(manifests[n])
  {
  }

  lemma NoFiles()
    ensures DigestsOf({}) == {} && Misnamed({}) == {}
  {
  }

  lemma RemovedMore(blobs: map<FileName, Digest>, a: set<FileName>, b: set<FileName>, stuck: set<FileName>)
    ensures blobs - (a + b - stuck) == blobs - (a - stuck) - (b - stuck)
  {
  }

  lemma MoreFiles(fs: set<FileName>, f: FileName)
    ensures DigestsOf(fs + {f}) == DigestsOf(fs) + DigestsOf({f})
    ensures Misnamed(fs + {f}) == Misnamed(fs) + Misnamed({f})
  {
    hide Valid, Coloned;
  }

  /** What is left is what is not referred to; the empty digest does not matter. */
  ghost predicate Left(unused: set<Digest>, deleteMap: set<Digest>, roots: set<Digest>) {
    forall k: Digest | k != "" :: k in unused <==> k in deleteMap && k !in roots
  }

  lemma LeftLess(before: set<Digest>, after: set<Digest>, deleteMap: set<Digest>, roots: set<Digest>, more: set<Digest>)
    requires Left(before, deleteMap, roots) && Left(after, before, more)
    ensures Left(after, deleteMap, roots + more)
  {
  }

  /** The empty digest has no file. */
  lemma SameFiles(unused: set<Digest>, deleteMap: set<Digest>, roots: set<Digest>)
    requires Left(unused, deleteMap, roots)
    ensures FilesOf(unused) == FilesOf(deleteMap - roots)
  {
    assert forall k | Valid(k) :: k != "";
    hide Valid, Dashed;
  }

  // ---------------------------------------------------- an error ends the operation

  lemma {:induction false} ListedFail(s: State, ds: seq<Digest>, i: nat, n: nat, stuck: set<FileName>)
    requires i <= n <= |ds| && !RemoveListed(s, ds, i, stuck).1
    ensures RemoveListed(s, ds, n, stuck) == RemoveListed(s, ds, i, stuck)
  {
    hide RemoveLayer;
    if i < n {
      ListedFail(s, ds, i, n - 1, stuck);
    }
  }

  lemma {:induction false} FetchFails(s: State, ds: seq<Digest>, i: nat, n: nat, answers: nat -> Option<Digest>)
    requires i <= n <= |ds| && !Fetch(s, ds, i, answers).ok
    ensures Fetch(s, ds, n, answers) == Fetch(s, ds, i, answers)
  {
    if i < n {
      FetchFails(s, ds, i, n - 1, answers);
    }
  }

  lemma {:induction false} VerifyFails(
      blobs: map<FileName, Digest>, hits: map<Digest, bool>, ds: seq<Digest>, i: nat, n: nat, stuck: set<FileName>)
    requires i <= n <= |ds| && !Verify(blobs, hits, ds, i, stuck).1
    ensures Verify(blobs, hits, ds, n, stuck) == Verify(blobs, hits, ds, i, stuck)
  {
    if i < n {
      VerifyFails(blobs, hits, ds, i, n - 1, stuck);
    }
  }
}
