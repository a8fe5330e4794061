/** Downloading a blob in parts, each of which may be interrupted and resumed. */
module StoreDownload {
  const MEGABYTE: nat := 1000 * 1000
  const NUM_PARTS: nat := 16
  const MIN_PART: nat := 100 * MEGABYTE
  const MAX_PART: nat := 1000 * MEGABYTE

  type byte = x: int | 0 <= x < 256

  datatype Part = Part(offset: nat, size: nat, completed: nat)

  /** How a request for the rest of a part ends: in full or interrupted, and saved or
      not; or with an error, after which the progress is forgotten. */
  datatype Ending = Received | Unsaved | Failed

  /** What may happen while a blob is downloaded. */
  datatype Step = Chunk(i: nat, count: nat, ending: Ending) | Restart

  /** The parts follow one another without gap from 0 to end. */
  ghost predicate Tiles(parts: seq<Part>, end: nat) {
    if parts == [] then end == 0
    else
      var p := parts[|parts| - 1];
      0 < p.size <= MAX_PART && p.offset + p.size == end && Tiles(parts[..|parts| - 1], p.offset)
  }

  function PartSize(total: nat): (size: nat)
    ensures MIN_PART <= size <= MAX_PART
  {
    var size := total / NUM_PARTS;
    if size < MIN_PART then MIN_PART else if size > MAX_PART then MAX_PART else size
  }

  /** Blobs up to 1.6 GB are cut into parts of 100 MB, those from 16 GB on into parts of
      1 GB, and those between into sixteen parts and a rest. */
  lemma PartSizes(total: nat)
    ensures total <= 1_600_000_000 ==> PartSize(total) == 100_000_000
    ensures total >= 16_000_000_000 ==> PartSize(total) == 1_000_000_000
    ensures 1_600_000_000 <= total <= 16_000_000_000 ==> 16 * PartSize(total) <= total < 16 * PartSize(total) + 16
  {
  }

  /** Every byte belongs to some part. */
  lemma {:induction false} TilesCover(parts: seq<Part>, end: nat, k: nat) returns (i: nat)
    requires Tiles(parts, end) && k < end
    ensures i < |parts| && parts[i].offset <= k < parts[i].offset + parts[i].size
  {
    var n := |parts| - 1;
    if parts[n].offset <= k {
      i := n;
    } else {
      i := TilesCover(parts[..n], parts[n].offset, k);
    }
  }

  lemma {:induction false} TilesWithin(parts: seq<Part>, end: nat, i: nat)
    requires Tiles(parts, end) && i < |parts|
    ensures parts[i].offset + parts[i].size <= end
  {
    var n := |parts| - 1;
    if i < n {
      TilesWithin(parts[..n], parts[n].offset, i);
    }
  }

  /** Parts that differ only in what is completed. */
  ghost predicate SamePlaces(a: seq<Part>, b: seq<Part>) {
    |a| == |b| && forall i | 0 <= i < |a| :: a[i].offset == b[i].offset && a[i].size == b[i].size
  }

  lemma {:induction false} TilesSame(a: seq<Part>, b: seq<Part>, end: nat)
    requires Tiles(a, end) && SamePlaces(a, b)
    ensures Tiles(b, end)
  {
    if a != [] {
      TilesSame(a[..|a| - 1], b[..|b| - 1], a[|a| - 1].offset);
    }
  }

  lemma WrittenAt(file: seq<byte>, remote: seq<byte>, start: nat, count: nat)
    requires start + count <= |file| == |remote|
    ensures var file' := file[..start] + remote[start..start + count] + file[start + count..];
      |file'| == |file| && forall k | 0 <= k < |file| ::
        file'[k] == if start <= k < start + count then remote[k] else file[k]
  {
  }

  class BlobDownload {
    const remote: seq<byte>
    var parts: seq<Part>
    var saved: seq<Part>     // the part files
    var file: seq<byte>      // the partial file

    ghost predicate Valid()
      reads this
    {
      && |file| == |remote|
      && Tiles(parts, |remote|)
      && SamePlaces(parts, saved)
      && (forall i | 0 <= i < |parts| :: saved[i].completed <= parts[i].completed <= parts[i].size)
      && (forall i | 0 <= i < |parts| :: Arrived(parts[i]))
    }

    /** What is completed of a part is in the file. */
    ghost predicate Arrived(p: Part)
      reads this
    {
      forall k | p.offset <= k < p.offset + p.completed && k < |file| && k < |remote| :: file[k] == remote[k]
    }

    /** Divides the blob into parts; the partial file may hold anything. */
    constructor (remote: seq<byte>, blank: seq<byte>)
      requires |blank| == |remote|
      ensures Valid() && this.remote == remote && file == blank && saved == parts
      ensures forall i | 0 <= i < |parts| :: parts[i].completed == 0
      ensures forall i | 0 <= i < |parts| - 1 :: parts[i].size == PartSize(|remote|)
    {
      this.remote, this.file := remote, blank;
      var ps: seq<Part> := [];
      var offset := 0;
      var size := PartSize(|remote|);
      while offset < |remote|
        invariant offset <= |remote| && Tiles(ps, offset)
        invariant offset < |remote| ==> size == PartSize(|remote|)
        invariant forall i | 0 <= i < |ps| :: ps[i].completed == 0
        invariant forall i | 0 <= i < |ps| && (i < |ps| - 1 || offset < |remote|) :: ps[i].size == PartSize(|remote|)
      {
        if offset + size > |remote| {
          size := |remote| - offset;
        }
        var p := Part(offset, size, 0);
        assert (ps + [p])[..|ps|] == ps;
        ps := ps + [p];
        offset := offset + size;
      }
      parts, saved := ps, ps;
    }

    /** Requests the rest of a part, of which count bytes arrive and are written. */
    method DownloadChunk(i: nat, count: nat, ending: Ending)
      requires Valid() && i < |parts| && count <= parts[i].size - parts[i].completed
      modifies this
      ensures Valid() && SamePlaces(parts, old(parts))
      ensures var p := old(parts[i]);
        parts == old(parts)[i := p.(completed := p.completed + if ending.Failed? then 0 else count)]
      ensures saved == if ending.Received? then old(saved)[i := parts[i]] else old(saved)
    {
      var p := parts[i];
      var start := p.offset + p.completed;
      TilesWithin(parts, |remote|, i);
      hide Tiles;
      WrittenAt(file, remote, start, count);
      file := file[..start] + remote[start..start + count] + file[start + count..];
      if !ending.Failed? {
        parts := parts[i := p.(completed := p.completed + count)];
        TilesSame(old(parts), parts, |remote|);
        if ending.Received? {
          saved := saved[i := parts[i]];
        }
      }
      forall j | 0 <= j < |parts|
        ensures Arrived(parts[j])
      {
        assert old(Arrived(parts[j]));
      }
    }

    /** After an interruption the parts are read back from their files; the partial
        file is kept. */
    method Resume()
      requires Valid()
      modifies this`parts
      ensures Valid() && parts == saved
    {
      TilesSame(parts, saved, |remote|);
      forall j | 0 <= j < |saved|
        ensures Arrived(saved[j])
      {
        assert Arrived(parts[j]);
      }
      parts := saved;
    }

    /** Once every part is completed the partial file is the blob. */
    lemma CompleteIsRemote()
      requires Valid() && forall i | 0 <= i < |parts| :: parts[i].completed == parts[i].size
      ensures file == remote
    {
      forall k | 0 <= k < |remote|
        ensures file[k] == remote[k]
      {
        var i := TilesCover(parts, |remote|, k);
        assert Arrived(parts[i]);
      }
    }

    /** Any number of requests, for any parts in any order, however they end, with
        restarts in between: if in the end every part is completed, the blob is there. */
    method Run(steps: seq<Step>) returns (done: bool)
      requires Valid()
      modifies this
      ensures Valid() && (done ==> file == remote)
      ensures done <==> forall i | 0 <= i < |parts| :: parts[i].completed == parts[i].size
    {
      for n := 0 to |steps|
        invariant Valid()
      {
        match steps[n] {
          case Restart => Resume();
          case Chunk(i, count, ending) =>
            if i < |parts| && count <= parts[i].size - parts[i].completed {
              DownloadChunk(i, count, ending);
            }
        }
      }
      for i := 0 to |parts|
        invariant forall j | 0 <= j < i :: parts[j].completed == parts[j].size
      {
        if parts[i].completed != parts[i].size {
          return false;
        }
      }
      CompleteIsRemote();
      return true;
    }
  }
}
