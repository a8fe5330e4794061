/** Decoding a model file through a cursor that advances. */
module GgufReader {
  import opened Helpers
  import opened GgufBytes
  import opened GgufValue
  import opened GgufTensor
  import opened GgufFile

  const SCRATCH: nat := 16384

  class Reader {
    const file: Bytes
    const maxArraySize: int
    var pos: nat

    constructor (file: Bytes, maxArraySize: int)
      ensures this.file == file && this.maxArraySize == maxArraySize && pos == 0
    {
      this.file, this.maxArraySize, pos := file, maxArraySize, 0;
    }

    /** What was read and where that left the cursor, or nothing after an error. */
    ghost function Read<T>(r: Option<T>): Option<(T, nat)>
      reads this
    {
      if r.Some? then Some((r.value, pos)) else None
    }

    method ReadFull(n: nat) returns (r: Option<Bytes>)
      modifies this
      ensures Read(r) == Take(file, old(pos), n)
    {
      if pos + n > |file| {
        return None;
      }
      r := Some(file[pos..pos + n]);
      pos := pos + n;
    }

    /** Reads some bytes, at least one and at most n, or reports the end of the file. */
    method ReadSome(n: nat) returns (got: nat)
      requires n > 0
      modifies this
      ensures pos == old(pos) + got && got <= n
      ensures got == 0 <==> |file| <= old(pos)
      ensures got > 0 ==> pos <= |file|
    {
      if |file| <= pos {
        return 0;
      }
      got := if n < |file| - pos then n else |file| - pos;
      pos := pos + got;
    }

    method ReadNumber(width: nat) returns (r: Option<nat>)
      modifies this
      ensures Read(r) == ReadUint(file, old(pos), width)
    {
      var b := ReadFull(width);
      r := if b.Some? then Some(UnLe(b.value)) else None;
    }

    method ReadText() returns (r: Option<Bytes>)
      modifies this
      ensures Read(r) == ReadString(file, old(pos))
    {
      var length := ReadNumber(8);
      if length.None? || length.value >= TWO63 {
        return None;
      }
      r := ReadFull(length.value);
    }

    /** Discards a string piece by piece, without holding it. */
    method DiscardText() returns (ok: bool)
      modifies this
      ensures ok <==> SkipString(file, old(pos)).Some?
      ensures ok ==> pos == SkipString(file, old(pos)).value
    {
      var length := ReadNumber(8);
      if length.None? {
        return false;
      }
      ghost var end := pos + length.value;
      var size := Int64(length.value);
      while size > 0
        invariant size > 0 ==> size == end - pos
        invariant length.value < TWO63 ==> pos <= end && (size <= 0 ==> pos == end && end <= |file|)
        invariant length.value >= TWO63 ==> size <= 0 && pos == end - length.value
        decreases size
      {
        var n := ReadSome(if size < SCRATCH then size else SCRATCH);
        if n == 0 {
          return false;
        }
        size := size - n;
      }
      return true;
    }

    method ReadOne(t: nat) returns (r: Option<Value>)
      modifies this
      ensures Read(r) == ReadScalar(file, old(pos), t)
    {
      if Numeric(t) {
        var bits := ReadNumber(Width(t));
        r := if bits.None? then None
             else Some(Num(t, if Signed(t) then FromBits(bits.value, Width(t)) else bits.value));
      } else if t == BOOL {
        var bits := ReadNumber(1);
        r := if bits.None? then None else Some(Flag(bits.value != 0));
      } else if t == STRING {
        var s := ReadText();
        r := if s.None? then None else Some(Text(s.value));
      } else {
        r := None;
      }
    }

    /** An array is collected when its size is within the bound; otherwise its
        elements are only moved past. */
    method ReadList() returns (r: Option<Value>)
      modifies this
      ensures Read(r) == ReadArray(file, old(pos), maxArraySize)
    {
      hide ReadScalar, ReadString, SkipString, ReadElems;
      var t := ReadNumber(4);
      if t.None? {
        return None;
      }
      var n := ReadNumber(8);
      if n.None? || n.value >= TWO63 {
        return None;
      }
      var collect, values := CanCollect(n.value, maxArraySize), [];
      ghost var start := pos;
      NoElems(file, start, t.value, [], collect);
      for i := 0 to n.value
        invariant ReadElems(file, start, t.value, i, collect) == Some((values, pos))
      {
        OneElemMore(file, start, t.value, i, collect);
        ElemsFail(file, start, t.value, i, n.value, collect);
        if t.value == STRING && !collect {
          var ok := DiscardText();
          if !ok {
            return None;
          }
        } else {
          var e := ReadOne(t.value);
          if e.None? {
            return None;
          }
          if collect {
            values := values + [e.value];
          }
        }
      }
      r := Some(Array(n.value, if collect then Some(values) else None));
    }

    method ReadTyped() returns (r: Option<Value>)
      modifies this
      ensures Read(r) == ReadValue(file, old(pos), maxArraySize)
    {
      hide ReadScalar, ReadArray;
      var t := ReadNumber(4);
      if t.None? {
        r := None;
      } else if t.value == ARRAY {
        r := ReadList();
      } else {
        r := ReadOne(t.value);
      }
    }

    method ReadAllPairs(numKV: nat) returns (r: Option<map<Bytes, Value>>)
      modifies this
      ensures Read(r) == ReadPairs(file, old(pos), numKV, maxArraySize)
    {
      hide ReadValue, ReadString, ReadPairs;
      var kv: map<Bytes, Value> := map[];
      ghost var start := pos;
      NothingElided(file, start, maxArraySize);
      for i := 0 to numKV
        invariant ReadPairs(file, start, i, maxArraySize) == Some((kv, pos))
      {
        OnePairRead(file, start, i, maxArraySize);
        PairsFail(file, start, i + 1, numKV, maxArraySize);
        var k := ReadText();
        if k.None? {
          return None;
        }
        var v := ReadTyped();
        if v.None? {
          return None;
        }
        kv := kv[k.value := v.value];
      }
      r := Some(kv);
    }

    method ReadDescription() returns (r: Option<Info>)
      modifies this
      ensures Read(r) == ReadInfo(file, old(pos))
    {
      hide ReadString, ReadUint, ReadShape;
      Ranges();
      var name := ReadText();
      if name.None? {
        return None;
      }
      var dims := ReadNumber(4);
      if dims.None? {
        return None;
      }
      var shape := ReadDimensions(dims.value);
      if shape.None? {
        return None;
      }
      var kind := ReadNumber(4);
      if kind.None? {
        return None;
      }
      var offset := ReadNumber(8);
      if offset.None? {
        return None;
      }
      r := Some(Info(name.value, kind.value, shape.value, offset.value));
    }

    method ReadDimensions(dims: nat) returns (r: Option<seq<u64>>)
      modifies this
      ensures Read(r) == ReadShape(file, old(pos), dims)
    {
      hide ReadUint;
      Ranges();
      var shape: seq<u64> := [];
      ghost var start := pos;
      for i := 0 to dims
        invariant ReadShape(file, start, i) == Some((shape, pos))
      {
        ShapeFails(file, start, i + 1, dims);
        var d := ReadNumber(8);
        if d.None? {
          return None;
        }
        shape := shape + [d.value];
      }
      r := Some(shape);
    }

    method ReadDescriptions(numTensor: nat) returns (r: Option<seq<Info>>, parameters: u64)
      modifies this
      ensures Read(r) == ReadInfos(file, old(pos), numTensor)
      ensures r.Some? ==> parameters == TotalParameters(r.value, numTensor)
    {
      hide ReadInfo, Parameters;
      var tensors: seq<Info> := [];
      parameters := 0;
      ghost var start := pos;
      for i := 0 to numTensor
        invariant ReadInfos(file, start, i) == Some((tensors, pos))
        invariant parameters == TotalParameters(tensors, i)
      {
        InfosFail(file, start, i + 1, numTensor);
        var tensor := ReadDescription();
        if tensor.None? {
          return None, 0;
        }
        TotalPrefix(tensors, tensor.value, i);
        tensors := tensors + [tensor.value];
        var count := CountOne(tensor.value.shape);
        parameters := (parameters + count) % TWO64;
      }
      r := Some(tensors);
    }

    method CountOne(shape: seq<u64>) returns (count: u64)
      ensures count == Parameters(shape, |shape|)
    {
      count := 1;
      for i := 0 to |shape|
        invariant count == Parameters(shape, i)
      {
        count := count * shape[i] % TWO64;
      }
    }

    /** Moves past the data, tensor by tensor. */
    method SeekPast(tensors: seq<Info>, align: nat) returns (ok: bool)
      requires align > 0
      modifies this
      ensures ok <==> SkipData(tensors, |tensors|, old(pos), align).Some?
      ensures ok ==> pos == SkipData(tensors, |tensors|, old(pos), align).value
    {
      hide SizeOf, Padding;
      ghost var start := pos;
      for i := 0 to |tensors|
        invariant SkipData(tensors, i, start, align) == Some(pos)
      {
        SkipFails(tensors, start, align, i + 1, |tensors|);
        var p := Seek(pos, Padding(pos, align));
        if p.None? {
          return false;
        }
        var q := Seek(p.value, Int64(SizeOf(tensors[i].kind, tensors[i].shape)));
        if q.None? {
          return false;
        }
        pos := q.value;
      }
      return true;
    }

    method DecodeModel() returns (r: Option<Model>)
      requires pos == 0 && maxArraySize != 0
      modifies this
      ensures r == Decode(file, maxArraySize)
    {
      hide ReadPairs, ReadInfos, SkipData, TotalParameters, Alignment, Padding;
      var magic := ReadNumber(4);
      if magic.None? {
        return None;
      }
      var version := ReadNumber(4);
      if version.None? {
        return None;
      }
      var numTensor := ReadNumber(8);
      if numTensor.None? {
        return None;
      }
      var numKV := ReadNumber(8);
      if numKV.None? || magic.value != MAGIC_LE || version.value == 1 {
        return None;
      }
      r := DecodeRest(numTensor.value, numKV.value);
    }

    method DecodeRest(numTensor: nat, numKV: nat) returns (r: Option<Model>)
      modifies this
      ensures r == match ReadPairs(file, old(pos), numKV, maxArraySize)
        case None => None
        case Some((pairs, p)) => DecodeTensors(file, p, numTensor, pairs)
    {
      hide ReadPairs, ReadInfos, SkipData, TotalParameters, Alignment, Padding;
      var kv := ReadAllPairs(numKV);
      if kv.None? {
        return None;
      }
      var tensors, parameters := ReadDescriptions(numTensor);
      if tensors.None? {
        return None;
      }
      var all := kv.value[ParameterCount() := Num(10, parameters)];
      var alignment := Alignment(all);
      if alignment == 0 {
        return None;
      }
      var dataStart := pos + Padding(pos, alignment);
      var ok := SeekPast(tensors.value, alignment);
      r := if ok then Some(Model(all, tensors.value, dataStart, pos)) else None;
    }
  }

  /** Decodes a model from the start of a file. */
  method DecodeFile(file: Bytes, max: int) returns (r: Option<Model>)
    ensures r == Decode(file, max)
  {
    var reader := new Reader(file, if max == 0 then DEFAULT_MAX else max);
    r := reader.DecodeModel();
    SameBound(file, max);
  }

  lemma SameBound(file: Bytes, max: int)
    ensures Decode(file, Bound(max)) == Decode(file, max)
  {
    hide ReadHead, ReadPairs, DecodeTensors;
  }

  // ---------------------------------------------------- errors end the decoding

  lemma {:induction false} ElemsFail(f: Bytes, pos: nat, t: nat, i: nat, n: nat, collect: bool)
    requires i < n
    ensures ReadElems(f, pos, t, i + 1, collect).None? ==> ReadElems(f, pos, t, n, collect).None?
    ensures ReadElems(f, pos, t, i, collect).Some? ==>
      var p := ReadElems(f, pos, t, i, collect).value.1;
      (if collect then ReadScalar(f, p, t).None? else SkipScalar(f, p, t).None?) ==>
        ReadElems(f, pos, t, n, collect).None?
  {
    hide ReadScalar, SkipScalar;
    if i + 1 < n {
      ElemsFail(f, pos, t, i, n - 1, collect);
    }
  }

  lemma {:induction false} PairsFail(f: Bytes, pos: nat, i: nat, n: nat, max: int)
    requires i <= n
    ensures ReadPairs(f, pos, n, max).Some? ==> ReadPairs(f, pos, i, max).Some?
  {
    hide ReadPair;
    if i < n {
      PairsFail(f, pos, i, n - 1, max);
    }
  }

  lemma {:induction false} ShapeFails(f: Bytes, pos: nat, i: nat, n: nat)
    requires i <= n
    ensures ReadShape(f, pos, n).Some? ==> ReadShape(f, pos, i).Some?
  {
    hide ReadUint;
    if i < n {
      ShapeFails(f, pos, i, n - 1);
    }
  }

  lemma {:induction false} InfosFail(f: Bytes, pos: nat, i: nat, n: nat)
    requires i <= n
    ensures ReadInfos(f, pos, n).Some? ==> ReadInfos(f, pos, i).Some?
  {
    hide ReadInfo;
    if i < n {
      InfosFail(f, pos, i, n - 1);
    }
  }

  lemma {:induction false} SkipFails(infos: seq<Info>, pos: nat, align: nat, i: nat, n: nat)
    requires i <= n <= |infos| && align > 0
    ensures SkipData(infos, n, pos, align).Some? ==> SkipData(infos, i, pos, align).Some?
  {
    hide SizeOf, Padding;
    if i < n {
      SkipFails(infos, pos, align, i, n - 1);
    }
  }

  lemma {:induction false} TotalPrefix(infos: seq<Info>, info: Info, n: nat)
    requires n <= |infos|
    ensures TotalParameters(infos + [info], n) == TotalParameters(infos, n)
  {
    hide Parameters;
    if n != 0 {
      TotalPrefix(infos, info, n - 1);
    }
  }
}
