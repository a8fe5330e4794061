/** Whole model files: what is written, what is decoded, and how they relate. */
module GgufFile {
  import opened Helpers
  import opened GgufBytes
  import opened GgufValue
  import opened GgufTensor

  const GGUF: Bytes := [0x47, 0x47, 0x55, 0x46]
  const MAGIC_LE: nat := 0x46554747
  const DEFAULT_MAX: int := 1024

  function Ascii(s: string): (b: Bytes)
    requires forall i | 0 <= i < |s| :: s[i] < 128 as char
    ensures |b| == |s|
  {
    seq(|s|, i requires 0 <= i < |s| => s[i] as int)
  }

  /** The key under which the reader records the number of parameters. */
  function ParameterCount(): (k: Bytes)
    ensures |k| == 23
  {
    Ascii("general.parameter_count")
  }

  function AlignmentKey(): (k: Bytes)
    ensures |k| == 17
  {
    Ascii("general.alignment")
  }

  // ------------------------------------------------------------------- decoding

  datatype Model = Model(kv: map<Bytes, Value>, tensors: seq<Info>, dataStart: nat, end: nat)

  /** A bound of 0 stands for the default. */
  function Bound(max: int): int {
    if max == 0 then DEFAULT_MAX else max
  }

  /** The numbers of tensors and of pairs; big-endian files and version 1 are not modelled. */
  function ReadHead(f: Bytes): Option<(nat, nat)> {
    var (magic, _) :- ReadUint(f, 0, 4);
    var (version, _) :- ReadUint(f, 4, 4);
    var (numTensor, _) :- ReadUint(f, 8, 8);
    var (numKV, _) :- ReadUint(f, 16, 8);
    if magic == MAGIC_LE && version != 1 then Some((numTensor, numKV)) else None
  }

  function Alignment(kv: map<Bytes, Value>): nat {
    if AlignmentKey() in kv && kv[AlignmentKey()].Num? && kv[AlignmentKey()].t == 4 && kv[AlignmentKey()].v >= 0
    then kv[AlignmentKey()].v else 32
  }

  /** What follows once the pairs have been read. */
  function DecodeTensors(f: Bytes, pos: nat, numTensor: nat, pairs: map<Bytes, Value>): Option<Model> {
    var (infos, p) :- ReadInfos(f, pos, numTensor);
    var kv := pairs[ParameterCount() := Num(10, TotalParameters(infos, |infos|))];
    var align := Alignment(kv);
    if align == 0 then None
    else
      var end :- SkipData(infos, |infos|, p, align);
      Some(Model(kv, infos, p + Padding(p, align), end))
  }

  function Decode(f: Bytes, max: int): Option<Model> {
    var (numTensor, numKV) :- ReadHead(f);
    var (pairs, p) :- ReadPairs(f, 24, numKV, Bound(max));
    DecodeTensors(f, p, numTensor, pairs)
  }

  // -------------------------------------------------------------------- writing

  /** The keys of the map, each listed once. */
  ghost predicate Lists(keys: seq<Bytes>, kv: map<Bytes, Written>) {
    && |keys| == |kv| < TWO63
    && (forall i | 0 <= i < |keys| :: keys[i] in kv)
    && KeySet(keys, |keys|) == kv.Keys
  }

  ghost predicate Encodable(kv: map<Bytes, Written>, keys: seq<Bytes>, ts: seq<Tensor>) {
    Writable(kv) && Lists(keys, kv) && Describable(ts) && |ts| < TWO63
  }

  function Head(numTensor: nat, numKV: nat): (b: Bytes)
    ensures |b| == 24
  {
    GGUF + (Le(3, 4) + (Le(numTensor, 8) + Le(numKV, 8)))
  }

  /** Where the descriptions of the tensors end. */
  function MetaEnd(kv: map<Bytes, Written>, keys: seq<Bytes>, ts: seq<Tensor>): nat
    requires Encodable(kv, keys, ts)
  {
    24 + |EncodePairs(kv, keys, |keys|)| + |EncodeInfos(ts, |ts|)|
  }

  function File(kv: map<Bytes, Written>, keys: seq<Bytes>, ts: seq<Tensor>): Bytes
    requires Encodable(kv, keys, ts)
  {
    Head(|ts|, |keys|) + (EncodePairs(kv, keys, |keys|) + (EncodeInfos(ts, |ts|) +
      EncodeData(ts, |ts|, MetaEnd(kv, keys, ts))))
  }

  // ----------------------------------------------------------------- round trip

  lemma MagicBytes()
    ensures Le(MAGIC_LE, 4) == GGUF
  {
    assert Le(MAGIC_LE / 256 / 256, 2) == [0x55, 0x46];
    assert Le(MAGIC_LE / 256, 3) == [0x47, 0x55, 0x46];
  }

  lemma HeadAt(f: Bytes, numTensor: nat, numKV: nat)
    requires numTensor < TWO63 && numKV < TWO63 && At(f, 0, Head(numTensor, numKV))
    ensures ReadHead(f) == Some((numTensor, numKV))
  {
    hide At, ReadUint, Le;
    Ranges();
    var counts := Le(numTensor, 8) + Le(numKV, 8);
    AtSplit(f, 0, GGUF, Le(3, 4) + counts);
    AtSplit(f, 4, Le(3, 4), counts);
    AtSplit(f, 8, Le(numTensor, 8), Le(numKV, 8));
    MagicBytes();
    UintAt(f, 0, MAGIC_LE, 4);
    UintAt(f, 4, 3, 4);
    UintAt(f, 8, numTensor, 8);
    UintAt(f, 16, numKV, 8);
  }

  lemma FileParts(kv: map<Bytes, Written>, keys: seq<Bytes>, ts: seq<Tensor>)
    requires Encodable(kv, keys, ts)
    ensures var f, pairs, infos := File(kv, keys, ts), EncodePairs(kv, keys, |keys|), EncodeInfos(ts, |ts|);
      var end := MetaEnd(kv, keys, ts);
      && At(f, 0, Head(|ts|, |keys|)) && At(f, 24, pairs) && At(f, 24 + |pairs|, infos)
      && At(f, end, EncodeData(ts, |ts|, end))
      && |f| == end + |EncodeData(ts, |ts|, end)|
  {
    hide Head, EncodePairs, EncodeInfos, EncodeData, Writable, Describable, KeySet;
    var f, pairs, infos := File(kv, keys, ts), EncodePairs(kv, keys, |keys|), EncodeInfos(ts, |ts|);
    var data := EncodeData(ts, |ts|, MetaEnd(kv, keys, ts));
    assert At(f, 0, f);
    AtSplit(f, 0, Head(|ts|, |keys|), pairs + (infos + data));
    AtSplit(f, 24, pairs, infos + data);
    AtSplit(f, 24 + |pairs|, infos, data);
  }

  /** What the pairs of a file are to be read back as. */
  function PairsOf(kv: map<Bytes, Written>, ts: seq<Tensor>, max: int): map<Bytes, Value>
    requires Writable(kv)
  {
    ElideAll(FullPairs(kv, kv.Keys), Bound(max))[ParameterCount() := Num(10, CountParameters(ts, |ts|))]
  }

  lemma PairsBack(kv: map<Bytes, Written>, keys: seq<Bytes>, ts: seq<Tensor>, max: int)
    requires Encodable(kv, keys, ts)
    ensures ReadHead(File(kv, keys, ts)) == Some((|ts|, |keys|))
    ensures ReadPairs(File(kv, keys, ts), 24, |keys|, max)
         == Some((ElideAll(FullPairs(kv, kv.Keys), max), 24 + |EncodePairs(kv, keys, |keys|)|))
  {
    hide At, ReadHead, ReadPairs, EncodePairs, EncodeInfos, EncodeData, File, Head, ElideAll, FullPairs, KeySet;
    hide Writable, Describable;
    FileParts(kv, keys, ts);
    HeadAt(File(kv, keys, ts), |ts|, |keys|);
    PairsAt(File(kv, keys, ts), 24, kv, keys, |keys|, max);
  }

  lemma InfosBack(kv: map<Bytes, Written>, keys: seq<Bytes>, ts: seq<Tensor>)
    requires Encodable(kv, keys, ts)
    ensures ReadInfos(File(kv, keys, ts), 24 + |EncodePairs(kv, keys, |keys|)|, |ts|)
         == Some((InfosOf(ts, |ts|), MetaEnd(kv, keys, ts)))
  {
    hide At, ReadInfos, EncodePairs, EncodeInfos, EncodeData, File, Head, KeySet, Writable, Describable;
    FileParts(kv, keys, ts);
    InfosAt(File(kv, keys, ts), 24 + |EncodePairs(kv, keys, |keys|)|, ts, |ts|);
  }

  /** What the reader makes of the pairs and of the descriptions that end at end. */
  function Finished(pairs: map<Bytes, Value>, infos: seq<Info>, end: nat): Option<Model> {
    var align := Alignment(pairs);
    if align == 0 || SkipData(infos, |infos|, end, align).None? then None
    else Some(Model(pairs, infos, end + Padding(end, align), SkipData(infos, |infos|, end, align).value))
  }

  lemma TensorsBack(f: Bytes, pos: nat, pairs: map<Bytes, Value>, ts: seq<Tensor>, end: nat)
    requires ReadInfos(f, pos, |ts|) == Some((InfosOf(ts, |ts|), end))
    ensures DecodeTensors(f, pos, |ts|, pairs)
         == Finished(pairs[ParameterCount() := Num(10, CountParameters(ts, |ts|))], InfosOf(ts, |ts|), end)
  {
    hide ReadInfos, SkipData, Padding, Alignment, TotalParameters, CountParameters, InfosOf;
    SameCount(ts, |ts|);
  }

  /** The metadata of a file comes back as it was written: the same keys with the
      same values, the number of parameters in addition, and the same tensors with
      their dimensions reversed. */
  lemma MetadataRoundTrip(kv: map<Bytes, Written>, keys: seq<Bytes>, ts: seq<Tensor>, max: int)
    requires Encodable(kv, keys, ts)
    ensures Decode(File(kv, keys, ts), max)
         == Finished(PairsOf(kv, ts, max), InfosOf(ts, |ts|), MetaEnd(kv, keys, ts))
  {
    hide ReadHead, ReadPairs, ReadInfos, DecodeTensors, EncodePairs, File, MetaEnd, ElideAll, FullPairs, Finished;
    hide KeySet, Describable, Writable;
    PairsBack(kv, keys, ts, Bound(max));
    InfosBack(kv, keys, ts);
    TensorsBack(File(kv, keys, ts), 24 + |EncodePairs(kv, keys, |keys|)|,
                ElideAll(FullPairs(kv, kv.Keys), Bound(max)), ts, MetaEnd(kv, keys, ts));
  }

  /** The alignment of the writer is the one the reader will use. */
  ghost predicate Aligned(kv: map<Bytes, Written>) {
    AlignmentKey() in kv && kv[AlignmentKey()].U32? ==> kv[AlignmentKey()].u == 32
  }

  lemma AlignedMeans(kv: map<Bytes, Written>, ts: seq<Tensor>, max: int)
    requires Writable(kv)
    ensures Alignment(PairsOf(kv, ts, max))
         == if AlignmentKey() in kv && kv[AlignmentKey()].U32? then kv[AlignmentKey()].u else 32
    ensures Aligned(kv) ==> Alignment(PairsOf(kv, ts, max)) == 32
  {
    hide Ascii;
    assert AlignmentKey() != ParameterCount();
  }

  /** Decoding what was written succeeds, and ends at the end of the file, if every
      tensor writes as many bytes as its size says and any alignment key is 32. */
  lemma RoundTrip(kv: map<Bytes, Written>, keys: seq<Bytes>, ts: seq<Tensor>, max: int)
    requires Encodable(kv, keys, ts)
    ensures Aligned(kv) && Sized(ts) && |File(kv, keys, ts)| < TWO63 ==>
      Decode(File(kv, keys, ts), max) == Some(
        Model(PairsOf(kv, ts, max), InfosOf(ts, |ts|), Start(ts, 0, MetaEnd(kv, keys, ts)), |File(kv, keys, ts)|))
  {
    hide Decode, File, MetaEnd, PairsOf, Alignment, SkipData, InfosOf, EncodeData, Start, Sized, Writable;
    hide Describable, KeySet, At, Finished, Aligned, EncodePairs, EncodeInfos, Head;
    var end := MetaEnd(kv, keys, ts);
    FileParts(kv, keys, ts);
    AlignedMeans(kv, ts, max);
    DataSkipped(ts, |ts|, end);
    MetadataRoundTrip(kv, keys, ts, max);
    if Aligned(kv) {
      FinishedAligned(PairsOf(kv, ts, max), ts, end);
    }
  }

  lemma FinishedAligned(pairs: map<Bytes, Value>, ts: seq<Tensor>, metaEnd: nat)
    requires Alignment(pairs) == 32
    ensures var end := SkipData(InfosOf(ts, |ts|), |ts|, metaEnd, 32);
      end.Some? ==>
        Finished(pairs, InfosOf(ts, |ts|), metaEnd)
          == Some(Model(pairs, InfosOf(ts, |ts|), Start(ts, 0, metaEnd), end.value))
  {
    hide Alignment, SkipData, InfosOf, Padding;
    NoData(ts, metaEnd);
  }

  lemma NoData(ts: seq<Tensor>, pos: nat)
    ensures Start(ts, 0, pos) == pos + Padding(pos, 32)
  {
  }

  /** The data of every tensor is in the file; the offset recorded for it leads
      there, for every tensor, exactly when the size of every tensor but the last
      is a multiple of 32. */
  lemma DataRoundTrip(kv: map<Bytes, Written>, keys: seq<Bytes>, ts: seq<Tensor>)
    requires Encodable(kv, keys, ts)
    ensures var end := MetaEnd(kv, keys, ts);
      && (forall i | 0 <= i < |ts| :: At(File(kv, keys, ts), Start(ts, i, end), ts[i].data))
      && (Sized(ts) && |File(kv, keys, ts)| < TWO63 ==>
           ((forall i | 0 <= i < |ts| :: Start(ts, 0, end) + InfoOf(ts, i).offset == Start(ts, i, end)) <==>
            forall j | 0 <= j && j + 1 < |ts| :: SizeOf(ts[j].kind, ts[j].shape) % 32 == 0))
  {
    hide At, File, Start, SizeOf, EncodeData, Encodable, Sized;
    var end := MetaEnd(kv, keys, ts);
    FileParts(kv, keys, ts);
    OffsetsHit(ts, end);
    forall i | 0 <= i < |ts|
      ensures At(File(kv, keys, ts), Start(ts, i, end), ts[i].data)
      ensures Hit(ts, i, end) <==> Start(ts, 0, end) + InfoOf(ts, i).offset == Start(ts, i, end)
    {
      DataAt(File(kv, keys, ts), ts, |ts|, end, i);
    }
  }

  // -------------------------------------------------------------- array elision

  /** No array that the bound leaves out holds a string of an impossible length. */
  ghost predicate FileSound(f: Bytes, max: int) {
    ReadHead(f).Some? ==> PairsSound(f, 24, ReadHead(f).value.1, Bound(max))
  }

  lemma TensorsElided(f: Bytes, pos: nat, numTensor: nat, pairs: map<Bytes, Value>, max: int)
    ensures var whole := DecodeTensors(f, pos, numTensor, pairs);
      var bounded := DecodeTensors(f, pos, numTensor, ElideAll(pairs, max));
      bounded == if whole.None? then None else Some(whole.value.(kv := ElideAll(whole.value.kv, max)))
  {
    hide ReadInfos, SkipData, TotalParameters, Padding;
    var infos := ReadInfos(f, pos, numTensor);
    if infos.Some? {
      var count := Num(10, TotalParameters(infos.value.0, |infos.value.0|));
      ElideUpdate(pairs, ParameterCount(), count, max);
      assert Alignment(pairs[ParameterCount() := count])
          == Alignment(ElideAll(pairs[ParameterCount() := count], max));
    }
  }

  /** The bound on collected arrays is invisible but for the elements left out:
      what can be decoded without a bound is decoded, within any bound, to the same
      keys, tensors and offsets. The converse holds exactly when no string that is
      left out has an impossible length, which is not noticed when it is discarded. */
  lemma ElisionIsTransparent(f: Bytes, max: int)
    ensures var whole, bounded := Decode(f, -1), Decode(f, max);
      && (whole.Some? ==> bounded == Some(whole.value.(kv := ElideAll(whole.value.kv, Bound(max)))))
      && (whole.Some? <==> bounded.Some? && FileSound(f, max))
  {
    hide ReadPairs, PairsSound, DecodeTensors, ElideAll;
    if ReadHead(f).Some? {
      var (numTensor, numKV) := ReadHead(f).value;
      PairsElided(f, 24, numKV, Bound(max));
      if ReadPairs(f, 24, numKV, -1).Some? {
        var (pairs, p) := ReadPairs(f, 24, numKV, -1).value;
        TensorsElided(f, p, numTensor, pairs, Bound(max));
      }
    }
  }

  const KEY: Bytes := [0x6b]

  /** A file of no tensors and one pair, whose value is an array of two strings
      of length 2^63. */
  function HugeFile(): Bytes {
    Head(0, 1) + (EncodeString(KEY) + (Le(ARRAY, 4) + HugeStrings()))
  }

  lemma HugePair(f: Bytes)
    requires f == HugeFile()
    ensures ReadHead(f) == Some((0, 1))
    ensures ReadPair(f, 24, 1) == Some(((KEY, Array(2, None)), 65)) && ReadPair(f, 24, -1) == None
  {
    hide At, UnLe, Le, Range, Take, Head, EncodeString, HugeStrings, ReadHead, ReadArray;
    assert At(f, 0, f) by { WholeAt(f); }
    Ranges();
    AtSplit(f, 0, Head(0, 1), EncodeString(KEY) + (Le(ARRAY, 4) + HugeStrings()));
    HeadAt(f, 0, 1);
    assert |EncodeString(KEY)| == 9 by { KeySize(); }
    AtSplit(f, 24, EncodeString(KEY), Le(ARRAY, 4) + HugeStrings());
    StringAt(f, 24, KEY);
    AtSplit(f, 33, Le(ARRAY, 4), HugeStrings());
    UintAt(f, 33, ARRAY, 4);
    HugeStringsAt(f, 37);
  }

  lemma WholeAt(f: Bytes)
    ensures At(f, 0, f)
  {
  }

  lemma KeySize()
    ensures |EncodeString(KEY)| == 9
  {
  }

  /** The bound can hide an error: a file that is decoded with a bound, but not
      without one. */
  lemma BoundHidesError()
    ensures Decode(HugeFile(), 1).Some? && Decode(HugeFile(), -1).None?
  {
    hide HugeFile, ReadHead, ReadPair, Padding, Ascii;
    var f := HugeFile();
    HugePair(f);
    OnePairRead(f, 24, 0, 1);
    OnePairRead(f, 24, 0, -1);
    assert AlignmentKey() != ParameterCount();
    assert KEY != AlignmentKey();
  }
}
