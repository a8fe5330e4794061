/** The store of models: manifests by name, and the blobs they refer to by digest. A
    blob is stood for by the digest of its content. */
module StoreState {
  import opened Helpers

  type Digest = string
  type FileName = string
  type ModelName = string

  // -------------------------------------------------------------------- digests

  predicate Hex(c: char) {
    '0' <= c <= '9' || 'a' <= c <= 'f' || 'A' <= c <= 'F'
  }

  /** What is accepted as a digest: with a colon, or with a dash. */
  predicate Valid(d: Digest) {
    |d| == 71 && d[..6] == "sha256" && (d[6] == ':' || d[6] == '-') && forall i | 7 <= i < 71 :: Hex(d[i])
  }

  predicate Canonical(d: Digest) {
    Valid(d) && d[6] == ':'
  }

  /** The file of a blob has dashes for colons. */
  function Dashed(d: Digest): (f: FileName)
    ensures |f| == |d| && forall i | 0 <= i < |d| :: f[i] == if d[i] == ':' then '-' else d[i]
  {
    seq(|d|, i requires 0 <= i < |d| => if d[i] == ':' then '-' else d[i])
  }

  function Coloned(f: FileName): (d: Digest)
    ensures |d| == |f| && forall i | 0 <= i < |f| :: d[i] == if f[i] == '-' then ':' else f[i]
  {
    seq(|f|, i requires 0 <= i < |f| => if f[i] == '-' then ':' else f[i])
  }

  /** A canonical digest is recovered from the name of its file; no other is. */
  lemma DashedColoned(d: Digest)
    requires Valid(d)
    ensures Coloned(Dashed(d)) == d <==> Canonical(d)
    ensures Canonical(Coloned(Dashed(d)))
    ensures ':' !in Dashed(d)
  {
    var e := Coloned(Dashed(d));
    assert forall i | 0 <= i < 6 :: d[i] == "sha256"[i];
    assert e[..6] == "sha256";
    assert d[6] == '-' ==> e[6] != d[6];
  }

  lemma ColonedDashed(f: FileName)
    requires ':' !in f
    ensures Dashed(Coloned(f)) == f
  {
  }

  // ---------------------------------------------------------------------- state

  /** A manifest that cannot be read is passed over. */
  datatype Manifest = Corrupt | Readable(layers: seq<Digest>, config: Digest)
  {
    /** The layers, and the configuration if there is one. */
    function Listed(): seq<Digest>
      requires Readable?
    {
      layers + if config != "" then [config] else []
    }
  }

  datatype State = State(manifests: map<ModelName, Manifest>, blobs: map<FileName, Digest>)

  /** The digests that the readable ones among some manifests refer to. */
  function RootsAmong(manifests: map<ModelName, Manifest>, names: set<ModelName>): set<Digest> {
    set n, d | n in names && n in manifests && manifests[n].Readable? && d in manifests[n].Listed() :: d
  }

  /** The digests that some readable manifest refers to. */
  function Roots(s: State): set<Digest> {
    RootsAmong(s.manifests, s.manifests.Keys)
  }

  ghost predicate Present(s: State) {
    forall d | d in Roots(s) :: Valid(d) && Dashed(d) in s.blobs
  }

  /** Every blob that a readable manifest refers to is there. */
  ghost predicate Safe(s: State) {
    && Present(s)
    && (forall d | d in Roots(s) :: Canonical(d))
    && (forall f | f in s.blobs :: ':' !in f)
  }

  // ------------------------------------------------------------------- deleting

  /** The files of those of the digests that are valid. */
  function FilesOf(ds: set<Digest>): set<FileName> {
    set k | k in ds && Valid(k) :: Dashed(k)
  }

  /** Those of the files that have no valid name, and the digests of the others. */
  function Misnamed(fs: set<FileName>): set<FileName> {
    set f | f in fs && !Valid(Coloned(f))
  }

  function DigestsOf(fs: set<FileName>): set<Digest> {
    set f | f in fs && Valid(Coloned(f)) :: Coloned(f)
  }

  /** Removes the blobs of those of the digests that no readable manifest refers to;
      files that are stuck cannot be removed. */
  function DeleteUnused(s: State, unused: set<Digest>, stuck: set<FileName>): State {
    s.(blobs := s.blobs - (FilesOf(unused - Roots(s)) - stuck))
  }

  /** Removes blobs under invalid names, then those that are not used. */
  function Prune(s: State, stuck: set<FileName>): State {
    DeleteUnused(s.(blobs := s.blobs - (Misnamed(s.blobs.Keys) - stuck)), DigestsOf(s.blobs.Keys), stuck)
  }

  /** What stays when a list of layers is removed, one after the other: each goes
      unless some manifest still refers to it. An error ends the removal. */
  function RemoveListed(s: State, ds: seq<Digest>, n: nat, stuck: set<FileName>): (State, bool)
    requires n <= |ds|
  {
    if n == 0 then (s, true)
    else
      var (t, ok) := RemoveListed(s, ds, n - 1, stuck);
      if !ok then (t, false) else RemoveLayer(t, ds[n - 1], stuck)
  }

  function RemoveLayer(s: State, d: Digest, stuck: set<FileName>): (State, bool) {
    if d == "" || d in Roots(s) then (s, true)
    else if !Valid(d) then (s, false)
    else if Dashed(d) !in s.blobs then (s, true)
    else if Dashed(d) in stuck then (s, false)
    else (s.(blobs := s.blobs - {Dashed(d)}), true)
  }

  /** Deletes a model: its manifest first, then the layers nobody else needs. */
  function Delete(s: State, name: ModelName, stuck: set<FileName>): State {
    if name !in s.manifests || s.manifests[name].Corrupt? then s
    else
      var listed := s.manifests[name].Listed();
      RemoveListed(s.(manifests := s.manifests - {name}), listed, |listed|, stuck).0
  }

  // -------------------------------------------------------------------- pulling

  /** How writing a manifest may end. */
  datatype Writing = Whole | Broken | Refused

  function Write(s: State, name: ModelName, m: Manifest, how: Writing): State {
    match how
    case Whole => s.(manifests := s.manifests[name := m])
    case Broken => s.(manifests := s.manifests[name := Corrupt])
    case Refused => s
  }

  function Copy(s: State, src: ModelName, dst: ModelName, how: Writing): State {
    if src == dst || src !in s.manifests then s else Write(s, dst, s.manifests[src], how)
  }

  /** What has been downloaded, and whether each blob was there before. */
  datatype Fetched = Fetched(blobs: map<FileName, Digest>, hits: map<Digest, bool>, ok: bool)

  /** The first n layers are downloaded in turn, until an answer is missing. */
  function Fetch(s: State, ds: seq<Digest>, n: nat, answers: nat -> Option<Digest>): Fetched
    requires n <= |ds|
  {
    if n == 0 then Fetched(s.blobs, map[], true)
    else
      var r := Fetch(s, ds, n - 1, answers);
      var d := ds[n - 1];
      if !r.ok || !Valid(d) then r.(ok := false)
      else if Dashed(d) in r.blobs then r.(hits := r.hits[d := true])
      else if answers(n - 1).None? then r.(ok := false)
      else Fetched(r.blobs[Dashed(d) := answers(n - 1).value], r.hits[d := false], true)
  }

  /** Of the first n layers those that were downloaded are verified; the first that
      does not match its digest is removed, and ends the pull. */
  function Verify(blobs: map<FileName, Digest>, hits: map<Digest, bool>, ds: seq<Digest>, n: nat, stuck: set<FileName>):
    (map<FileName, Digest>, bool)
    requires n <= |ds|
  {
    if n == 0 then (blobs, true)
    else
      var (b, ok) := Verify(blobs, hits, ds, n - 1, stuck);
      var d := ds[n - 1];
      if !ok then (b, false)
      else if d in hits && hits[d] then (b, true)
      else if Dashed(d) !in b then (b, false)
      else if b[Dashed(d)] == d then (b, true)
      else (b - ({Dashed(d)} - stuck), false)
  }

  /** All that a pull depends on: the manifest from the registry, if it comes, the
      answers for its layers, how writing it ends, and whether to prune. */
  datatype Pulling = Pulling(
    name: ModelName, incoming: Option<Manifest>, answers: nat -> Option<Digest>, how: Writing, prune: bool)

  function OldDigests(s: State, name: ModelName): set<Digest> {
    if name in s.manifests && s.manifests[name].Readable?
    then set d | d in s.manifests[name].Listed() else {}
  }

  /** Downloads, verifies, writes the manifest, and removes what only the old one used. */
  function Pull(s: State, q: Pulling, stuck: set<FileName>): State {
    if q.incoming.None? || q.incoming.value.Corrupt? then s
    else
      var ds := q.incoming.value.Listed();
      var r := Fetch(s, ds, |ds|, q.answers);
      if !r.ok then s.(blobs := r.blobs)
      else
        var (blobs, ok) := Verify(r.blobs, r.hits, ds, |ds|, stuck);
        if !ok then s.(blobs := blobs)
        else
          var t := Write(s.(blobs := blobs), q.name, q.incoming.value, q.how);
          if q.how.Whole? && q.prune
          then DeleteUnused(t, OldDigests(s, q.name) - (set d | d in ds), stuck) else t
  }
}
